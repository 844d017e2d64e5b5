/** An honest SCRAM exchange: what each side's parser makes of the other side's messages, and that the
    exchange succeeds. */
module ScramHonest {
  import opened Text
  import opened Bytes
  import opened ScramMessages
  import opened Scram

  // ---- Each message is parsed into what it was made of

  function BindingName(cs: ClientSetup): Option<string> {
    if cs.channelBinding then Some(cs.cbType) else None
  }

  predicate BindingNameOk(cs: ClientSetup) {
    cs.channelBinding ==> cs.cbType != "" && All(cs.cbType, IsBindingNameChar)
  }

  predicate AuthzidOk(authzid: string) {
    authzid == "" || IsName(authzid)
  }

  function SentAuthzid(authzid: string): Option<string> {
    if authzid == "" then None else Some(Escape(authzid))
  }

  lemma FlagParses(cs: ClientSetup, rest: string)
    requires BindingNameOk(cs) && rest != "" && rest[0] == ','
    ensures MatchFlag(CbFlag(cs) + rest) == Some((BindingName(cs), rest))
  {
    if cs.channelBinding {
      FieldOf("p=", cs.cbType, rest, IsBindingNameChar);
    } else {
      assert (CbFlag(cs) + rest)[1..] == rest;
    }
  }

  /** A printable authzid is taken whole. */
  lemma AuthzidParses(authzid: string, bare: string)
    requires AuthzidOk(authzid)
    ensures MatchAuthzid(AuthzidField(authzid) + "," + bare) == Some((SentAuthzid(authzid), "," + bare))
  {
    var s := AuthzidField(authzid) + "," + bare;
    EscapedIsValue(authzid);
    if authzid == "" {
      assert s == "," + bare && s[0] == ',';
    } else {
      assert s == "a=" + Escape(authzid) + ("," + bare);
      FieldOf("a=", Escape(authzid), "," + bare, IsValueChar);
    }
  }

  lemma Gs2Parses(cs: ClientSetup, bare: string)
    requires BindingNameOk(cs) && AuthzidOk(cs.authzid)
    ensures MatchGs2(Gs2(cs) + bare) == Some((BindingName(cs), SentAuthzid(cs.authzid), bare))
  {
    var rest2 := "," + bare;
    var rest1 := AuthzidField(cs.authzid) + "," + bare;
    var rest := "," + rest1;
    assert Gs2(cs) + bare == CbFlag(cs) + rest;
    FlagParses(cs, rest);
    SkipOf(",", rest1);
    AuthzidParses(cs.authzid, bare);
    SkipOf(",", bare);
  }

  lemma BareParses(username: string, nonce: string)
    requires IsName(username) && nonce != "" && All(nonce, IsValueChar)
    ensures MatchBare(ClientBare(username, nonce)) == Some((Escape(username), nonce))
  {
    EscapedIsValue(username);
    var rest := ",r=" + nonce;
    assert ClientBare(username, nonce) == "n=" + Escape(username) + rest;
    FieldOf("n=", Escape(username), rest, IsValueChar);
    assert rest == ",r=" + nonce + "";
    FieldOf(",r=", nonce, "", IsValueChar);
  }

  lemma BareIsPlain(username: string, nonce: string)
    requires nonce != "" && All(nonce, IsValueChar)
    ensures var bare := ClientBare(username, nonce);
      MandatoryExtension(bare, 'n') == Some((false, bare)) && ToEnd(bare) == bare
  {
    var bare := ClientBare(username, nonce);
    assert bare[0] == 'n';
    assert bare[|bare| - 1] == nonce[|nonce| - 1];
  }

  lemma ClientFirstParses(cs: ClientSetup, nonce: string)
    requires BindingNameOk(cs) && AuthzidOk(cs.authzid) && IsName(cs.username)
    requires nonce != "" && All(nonce, IsValueChar)
    ensures MatchClientFirst(Gs2(cs) + ClientBare(cs.username, nonce))
         == Some(ClientFirst(Gs2(cs), BindingName(cs), SentAuthzid(cs.authzid), ClientBare(cs.username, nonce), false,
                             Escape(cs.username), nonce))
  {
    var bare := ClientBare(cs.username, nonce);
    var s := Gs2(cs) + bare;
    Gs2Parses(cs, bare);
    BareParses(cs.username, nonce);
    BareIsPlain(cs.username, nonce);
    assert s[..|s| - |bare|] == Gs2(cs);
  }

  lemma ServerFirstParses(nonce: string, salt: string, iterations: nat)
    requires nonce != "" && All(nonce, IsValueChar) && salt != "" && All(salt, IsBase64Char)
    ensures MatchServerFirst("r=" + nonce + ",s=" + salt + ",i=" + Decimal(iterations))
         == Some(ServerFirst(false, nonce, salt, Decimal(iterations)))
  {
    var s := "r=" + nonce + ",s=" + salt + ",i=" + Decimal(iterations);
    var rest2 := ",i=" + Decimal(iterations);
    var rest1 := ",s=" + salt + rest2;
    assert s == "r=" + nonce + rest1 && s[0] == 'r';
    FieldOf("r=", nonce, rest1, IsValueChar);
    FieldOf(",s=", salt, rest2, IsBase64Char);
    assert rest2 == ",i=" + Decimal(iterations) + "";
    assert All(Decimal(iterations), IsDigit);
    FieldOf(",i=", Decimal(iterations), "", IsDigit);
    ServerFirstFrom(s, nonce, rest1, salt, rest2, Decimal(iterations));
  }

  lemma ServerFirstFrom(s: string, nonce: string, rest1: string, salt: string, rest2: string, iterations: string)
    requires s != "" && s[0] == 'r'
    requires Field(s, "r=", IsValueChar) == Some((nonce, rest1))
    requires Field(rest1, ",s=", IsBase64Char) == Some((salt, rest2))
    requires Field(rest2, ",i=", IsDigit) == Some((iterations, ""))
    ensures MatchServerFirst(s) == Some(ServerFirst(false, nonce, salt, iterations))
  {
  }

  lemma ProofParses(proof: string)
    requires proof != "" && All(proof, IsBase64Char)
    ensures MatchProof(",p=" + proof) == Some(("", proof))
  {
    var s := ",p=" + proof;
    assert s == "" + [','] + ("p=" + proof);
    FindLastIn("", ',', "p=" + proof);
    assert s[0..] == s && s == ",p=" + proof + "";
    FieldOf(",p=", proof, "", IsBase64Char);
  }

  lemma FinalMessageIs(cb: string, nonce: string, proof: string)
    ensures ClientFinalMessage("c=" + cb + ",r=" + nonce, proof) == "c=" + cb + (",r=" + nonce + (",p=" + proof))
  {
    assert ",p=" + proof == "," + ("p=" + proof);
  }

  lemma NoExtensions(cb: string, nonce: string)
    ensures BeforeProof(cb, nonce, "") == "c=" + cb + ",r=" + nonce
  {
    var s := "c=" + cb + ",r=" + nonce;
    assert s + "" == s;
  }

  lemma ClientFinalFrom(s: string, cb: string, rest: string, nonce: string, rest1: string, proof: string)
    requires Field(s, "c=", IsBase64Char) == Some((cb, rest))
    requires Field(rest, ",r=", IsValueChar) == Some((nonce, rest1))
    requires MatchProof(rest1) == Some(("", proof))
    ensures MatchClientFinal(s) == Some(ClientFinal("c=" + cb + ",r=" + nonce, cb, nonce, proof))
  {
    NoExtensions(cb, nonce);
  }

  lemma ClientFinalParses(cb: string, nonce: string, proof: string)
    requires cb != "" && All(cb, IsBase64Char) && nonce != "" && All(nonce, IsValueChar)
    requires proof != "" && All(proof, IsBase64Char)
    ensures MatchClientFinal(ClientFinalMessage("c=" + cb + ",r=" + nonce, proof))
         == Some(ClientFinal("c=" + cb + ",r=" + nonce, cb, nonce, proof))
  {
    var s := ClientFinalMessage("c=" + cb + ",r=" + nonce, proof);
    var rest1 := ",p=" + proof;
    var rest := ",r=" + nonce + rest1;
    FinalMessageIs(cb, nonce, proof);
    assert s == "c=" + cb + rest;
    FieldOf("c=", cb, rest, IsBase64Char);
    FieldOf(",r=", nonce, rest1, IsValueChar);
    ProofParses(proof);
    ClientFinalFrom(s, cb, rest, nonce, rest1, proof);
  }

  lemma ServerFinalParses(verifier: string)
    requires verifier != "" && All(verifier, IsBase64Char)
    ensures MatchServerFinal("v=" + verifier) == Some(Verifier(verifier))
  {
    assert "v=" + verifier == "v=" + verifier + "";
    FieldOf("v=", verifier, "", IsBase64Char);
    assert ("v=" + verifier)[0] == 'v';
  }

  // ---- Honest pairs

  /** Nonces the factories may give. The pattern also lets a line feed through at the end, which then
      breaks the exchange. */
  predicate NonceOk(raw: string) {
    MatchesValueChars(raw) ==> All(raw, IsValueChar)
  }

  /** Both ends use channel binding, of a type the server has data for, or neither does and they are not
      both able to. */
  predicate BindingsAgree(cs: ClientSetup, ss: ServerSetup) {
    if cs.channelBinding then ss.channelBinding && cs.cbType in ss.cbTable
    else !ss.channelBinding && !(cs.plusEnabled && ss.plusEnabled)
  }

  predicate BindingOk(cs: ClientSetup, ss: ServerSetup) {
    BindingNameOk(cs) && BindingsAgree(cs, ss) && (cs.channelBinding ==> ss.cbTable[cs.cbType] == cs.cbData)
  }

  /** The database has the client's password in one of the three formats. */
  predicate SharesPassword(k: Crypto, cs: ClientSetup, ss: ServerSetup) {
    && k.normalize(cs.password).Some?
    && var str := k.normalize(cs.password).value;
       match ss.database(cs.username)
       case Plain(password) => k.normalize(password) == Some(str)
       case Salted(salt, iterations, salted) => salted == Hi(k, str, salt, iterations)
       case Keys(salt, iterations, storedKey, serverKey) =>
         (storedKey, serverKey) == KeysOf(k, Hi(k, str, salt, iterations))
       case _ => false
  }

  /** Two ends that mean to agree. */
  predicate HonestParties(k: Crypto, cs: ClientSetup, ss: ServerSetup) {
    IsName(cs.username) && AuthzidOk(cs.authzid) && BindingOk(cs, ss) && SharesPassword(k, cs, ss)
  }

  /** Nonces and a salt that fit their messages. */
  predicate Fit(k: Crypto, cs: ClientSetup, ss: ServerSetup)
    requires HonestParties(k, cs, ss)
  {
    cs.rawNonce != "" && NonceOk(cs.rawNonce) && NonceOk(ss.rawNonce) && SharedSecret(k, cs, ss).salt != ""
  }

  predicate HonestPair(k: Crypto, cs: ClientSetup, ss: ServerSetup) {
    HonestParties(k, cs, ss) && Fit(k, cs, ss)
  }

  lemma FitNonceIsValue(k: Crypto, raw: string)
    requires Lawful(k) && NonceOk(raw)
    ensures All(FitNonce(k, raw), IsValueChar) && (FitNonce(k, raw) == "" <==> raw == "")
  {
    if !MatchesValueChars(raw) {
      var e := k.encode64(raw);
      assert All(e, IsBase64Char);
      assert forall c :: IsBase64Char(c) ==> IsValueChar(c);
    }
  }

  lemma {:induction false} XorLength(a: string, b: string)
    requires |a| == |b|
    ensures |Xor(a, b)| == |a|
  {
    if a != "" {
      XorLength(a[1..], b[1..]);
    }
  }

  // ---- The exchange, step by step

  /** Salt, iteration count and salted password both sides work with. */
  datatype Secret = Secret(salt: string, iterations: nat, salted: string)

  function SharedSecret(k: Crypto, cs: ClientSetup, ss: ServerSetup): Secret
    requires HonestParties(k, cs, ss)
  {
    var str := k.normalize(cs.password).value;
    match ss.database(cs.username)
    case Salted(salt, iterations, _) => Secret(salt, iterations, Hi(k, str, salt, iterations))
    case Keys(salt, iterations, _, _) => Secret(salt, iterations, Hi(k, str, salt, iterations))
    case _ =>
      var salt := if ss.salt != "" then ss.salt else ss.randomSalt;
      Secret(salt, ss.iterations, Hi(k, str, salt, ss.iterations))
  }

  function CombinedNonce(k: Crypto, cs: ClientSetup, ss: ServerSetup): string {
    FitNonce(k, cs.rawNonce) + FitNonce(k, ss.rawNonce)
  }

  function HonestServerFirst(k: Crypto, cs: ClientSetup, ss: ServerSetup): string
    requires HonestParties(k, cs, ss)
  {
    var x := SharedSecret(k, cs, ss);
    ServerFirstMessage(k, CombinedNonce(k, cs, ss), x.salt, x.iterations)
  }

  /** The auth message of section 3 of RFC 5802. */
  function HonestAuth(k: Crypto, cs: ClientSetup, ss: ServerSetup): string
    requires HonestParties(k, cs, ss)
  {
    var c := StartClient(k, cs).0;
    AuthMessage(c.bare, HonestServerFirst(k, cs, ss), WithoutProof(k, c, CombinedNonce(k, cs, ss)))
  }

  function HonestProof(k: Crypto, cs: ClientSetup, ss: ServerSetup): string
    requires HonestParties(k, cs, ss)
  {
    var key := ClientKey(k, SharedSecret(k, cs, ss).salted);
    Xor(key, k.hmac(k.h(key), HonestAuth(k, cs, ss)))
  }

  lemma LookupGivesSecret(k: Crypto, cs: ClientSetup, ss: ServerSetup)
    requires HonestParties(k, cs, ss)
    ensures var x := SharedSecret(k, cs, ss);
      Lookup(k, ss, cs.username) == Some(Credentials(x.salt, x.iterations, Some(KeysOf(k, x.salted))))
  {
  }

  lemma NoncesFit(k: Crypto, cs: ClientSetup, ss: ServerSetup)
    requires Lawful(k) && HonestPair(k, cs, ss)
    ensures var n, both := FitNonce(k, cs.rawNonce), CombinedNonce(k, cs, ss);
      n != "" && All(n, IsValueChar) && both != "" && All(both, IsValueChar) && n <= both
  {
    FitNonceIsValue(k, cs.rawNonce);
    FitNonceIsValue(k, ss.rawNonce);
    AllConcat(FitNonce(k, cs.rawNonce), FitNonce(k, ss.rawNonce), IsValueChar);
  }

  /** What the server makes of a client's header is what the two ends are set up for. */
  lemma BindingAcceptedIff(cs: ClientSetup, ss: ServerSetup, m: ClientFirst)
    requires m.gs2Header == Gs2(cs) && m.cbName == BindingName(cs)
    ensures BindingAcceptable(ss, m) <==> BindingsAgree(cs, ss)
  {
    assert m.gs2Header[0] == CbFlag(cs)[0];
  }

  /** The server's state once it has answered the first message. */
  function HonestServer(k: Crypto, cs: ClientSetup, ss: ServerSetup): Server
    requires HonestParties(k, cs, ss)
  {
    Server(ss, StartClient(k, cs).0.bare, HonestServerFirst(k, cs, ss), CombinedNonce(k, cs, ss), BindingName(cs),
           Gs2(cs),
           Some(KeysOf(k, SharedSecret(k, cs, ss).salted)), cs.username, cs.authzid)
  }

  function HonestClientFinal(k: Crypto, cs: ClientSetup, ss: ServerSetup): string
    requires HonestParties(k, cs, ss)
  {
    ClientFinalMessage(WithoutProof(k, StartClient(k, cs).0, CombinedNonce(k, cs, ss)),
                       k.encode64(HonestProof(k, cs, ss)))
  }

  function HonestServerFinal(k: Crypto, cs: ClientSetup, ss: ServerSetup): string
    requires HonestParties(k, cs, ss)
  {
    "v=" + k.encode64(Signature(k, SharedSecret(k, cs, ss).salted, HonestAuth(k, cs, ss)))
  }

  /** The server takes the client's first message and answers with its own. */
  lemma FirstStep(k: Crypto, cs: ClientSetup, ss: ServerSetup)
    requires Lawful(k) && HonestParties(k, cs, ss) && cs.rawNonce != "" && NonceOk(cs.rawNonce)
    ensures var c := StartClient(k, cs).0;
      ServerResponse(k, FreshServer(ss), c.gs2Header + c.bare)
      == (HonestServer(k, cs, ss), Challenge(HonestServerFirst(k, cs, ss)))
  {
    var nonce := FitNonce(k, cs.rawNonce);
    FitNonceIsValue(k, cs.rawNonce);
    ClientFirstParses(cs, nonce);
    var m := MatchClientFirst(Gs2(cs) + ClientBare(cs.username, nonce)).value;
    BindingAcceptedIff(cs, ss, m);
    UnescapeEscape(cs.username);
    UnescapeEscape(cs.authzid);
    LookupGivesSecret(k, cs, ss);
  }

  function HonestClient(k: Crypto, cs: ClientSetup, ss: ServerSetup): Client
    requires HonestParties(k, cs, ss)
  {
    StartClient(k, cs).0.(serverFirst := Some(HonestServerFirst(k, cs, ss)), password := None,
                          salted := Some(SharedSecret(k, cs, ss).salted), authMessage := HonestAuth(k, cs, ss))
  }

  lemma ServerFirstHeard(k: Crypto, cs: ClientSetup, ss: ServerSetup)
    requires Lawful(k) && HonestPair(k, cs, ss)
    ensures var x := SharedSecret(k, cs, ss);
      MatchServerFirst(HonestServerFirst(k, cs, ss))
      == Some(ServerFirst(false, CombinedNonce(k, cs, ss), k.encode64(x.salt), Decimal(x.iterations)))
  {
    var x := SharedSecret(k, cs, ss);
    NoncesFit(k, cs, ss);
    LookupGivesSecret(k, cs, ss);
    ServerFirstParses(CombinedNonce(k, cs, ss), k.encode64(x.salt), x.iterations);
  }

  /** The client takes the server's first message and proves its password. */
  lemma SecondStep(k: Crypto, cs: ClientSetup, ss: ServerSetup, h: Heard)
    requires Lawful(k) && HonestPair(k, cs, ss) && h.data == HonestServerFirst(k, cs, ss)
    requires h.first == Some(ServerFirst(false, CombinedNonce(k, cs, ss), k.encode64(SharedSecret(k, cs, ss).salt),
                                         Decimal(SharedSecret(k, cs, ss).iterations)))
    ensures ClientChallenge(k, StartClient(k, cs).0, h)
      == (HonestClient(k, cs, ss), Response(Some(HonestClientFinal(k, cs, ss))))
  {
    NoncesFit(k, cs, ss);
    NumberOfDecimal(SharedSecret(k, cs, ss).iterations);
    assert h.data != "" by { assert |h.data| >= 2; }
  }

  lemma ProofOpens(k: Crypto, key: string, auth: string)
    requires Lawful(k) && |key| == k.digestSize && All(key, IsByte)
    ensures var signature := k.hmac(k.h(key), auth);
      Xor(key, signature) != "" && Xor(signature, Xor(key, signature)) == key
  {
    XorUndone(key, k.hmac(k.h(key), auth));
    XorLength(key, k.hmac(k.h(key), auth));
  }

  /** A final message that carries the right nonce, binding input and proof is accepted. */
  lemma FinalAccepted(k: Crypto, s: Server, cbInput: string, proof: string, storedKey: string, serverKey: string)
    requires Lawful(k) && s.bare != "" && s.nonce != "" && All(s.nonce, IsValueChar)
    requires cbInput != "" && s.gs2Header <= cbInput && proof != "" && s.keys == Some((storedKey, serverKey))
    requires s.cbName.Some? ==>
      s.cbName.value in s.setup.cbTable && cbInput[|s.gs2Header|..] == s.setup.cbTable[s.cbName.value]
    requires var auth := AuthMessage(s.bare, s.serverFirst, "c=" + k.encode64(cbInput) + ",r=" + s.nonce);
      k.h(Xor(k.hmac(storedKey, auth), proof)) == storedKey
    ensures var withoutProof := "c=" + k.encode64(cbInput) + ",r=" + s.nonce;
      ServerResponse(k, s, ClientFinalMessage(withoutProof, k.encode64(proof)))
      == (s, Success(s.username, s.authzid,
                     Some("v=" + k.encode64(k.hmac(serverKey, AuthMessage(s.bare, s.serverFirst, withoutProof))))))
  {
    ClientFinalParses(k.encode64(cbInput), s.nonce, k.encode64(proof));
    var withoutProof := "c=" + k.encode64(cbInput) + ",r=" + s.nonce;
    FinalChecked(k, s, ClientFinal(withoutProof, k.encode64(cbInput), s.nonce, k.encode64(proof)), cbInput, proof);
  }

  lemma FinalChecked(k: Crypto, s: Server, m: ClientFinal, cbInput: string, proof: string)
    requires m.nonce == s.nonce && k.decode64(m.cb) == Some(cbInput) && k.decode64(m.proof) == Some(proof)
    requires s.gs2Header <= cbInput && s.keys.Some?
    requires s.cbName.Some? ==>
      s.cbName.value in s.setup.cbTable && cbInput[|s.gs2Header|..] == s.setup.cbTable[s.cbName.value]
    requires var auth := AuthMessage(s.bare, s.serverFirst, m.withoutProof);
      k.h(Xor(k.hmac(s.keys.value.0, auth), proof)) == s.keys.value.0
    ensures FinalResponse(k, s, Some(m))
      == (s, Success(s.username, s.authzid,
                     Some("v=" + k.encode64(k.hmac(s.keys.value.1,
                                                   AuthMessage(s.bare, s.serverFirst, m.withoutProof))))))
  {
  }

  /** The server accepts the proof, for the same auth message. */
  lemma ThirdStep(k: Crypto, cs: ClientSetup, ss: ServerSetup)
    requires Lawful(k) && HonestPair(k, cs, ss)
    ensures ServerResponse(k, HonestServer(k, cs, ss), HonestClientFinal(k, cs, ss))
      == (HonestServer(k, cs, ss), Success(cs.username, cs.authzid, Some(HonestServerFinal(k, cs, ss))))
  {
    var c := StartClient(k, cs).0;
    var s := HonestServer(k, cs, ss);
    var key := ClientKey(k, SharedSecret(k, cs, ss).salted);
    NoncesFit(k, cs, ss);
    ProofOpens(k, key, HonestAuth(k, cs, ss));
    assert s.gs2Header != "" && s.bare != "" by { assert |Gs2(cs)| >= 2 && |c.bare| >= 2; }
    assert CbInput(c)[|Gs2(cs)|..] == if cs.channelBinding then cs.cbData else "";
    FinalAccepted(k, s, CbInput(c), HonestProof(k, cs, ss), k.h(key), ServerKey(k, SharedSecret(k, cs, ss).salted));
  }

  lemma ServerFinalHeard(k: Crypto, cs: ClientSetup, ss: ServerSetup)
    requires Lawful(k) && HonestPair(k, cs, ss)
    ensures MatchServerFinal(HonestServerFinal(k, cs, ss))
      == Some(Verifier(k.encode64(Signature(k, SharedSecret(k, cs, ss).salted, HonestAuth(k, cs, ss)))))
  {
    ServerFinalParses(k.encode64(Signature(k, SharedSecret(k, cs, ss).salted, HonestAuth(k, cs, ss))));
  }

  /** The client accepts the server's signature, as additional data with success or in a challenge. */
  lemma FourthStep(k: Crypto, cs: ClientSetup, ss: ServerSetup, h: Heard)
    requires Lawful(k) && HonestPair(k, cs, ss) && h.data != ""
    requires h.final == Some(Verifier(k.encode64(Signature(k, SharedSecret(k, cs, ss).salted, HonestAuth(k, cs, ss)))))
    ensures var c := HonestClient(k, cs, ss); var done := Success(cs.username, cs.authzid, None);
      && Finish(k, c, Some(h)) == (c.(finished := true), done)
      && ClientChallenge(k, c, h) == (c.(finished := true), Response(None))
      && Finish(k, c.(finished := true), None) == (c.(finished := true), done)
  {
  }

  /** A whole exchange: the server's last reply and the client's. Anything unexpected ends it. */
  function Exchange(k: Crypto, cs: ClientSetup, ss: ServerSetup): (Reply, Reply) {
    var (c, m1) := StartClient(k, cs);
    if m1.Response? && m1.data.Some? then
      var (s, m2) := StartServer(k, FreshServer(ss), m1.data.value);
      if m2.Challenge? then Continue(k, c, s, m2.data1) else (m2, m1)
    else (m1, m1)
  }

  /** The exchange from the server's first message on. */
  function Continue(k: Crypto, c: Client, s: Server, serverFirst: string): (Reply, Reply) {
    var (c1, m3) := ClientChallenge(k, c, Hear(serverFirst));
    if m3.Response? && m3.data.Some? then
      var (_, m4) := ServerResponse(k, s, m3.data.value);
      if m4.Success? then (m4, Finish(k, c1, HearMaybe(m4.final)).1) else (m4, m3)
    else (Challenge(serverFirst), m3)
  }

  lemma HonestContinuation(k: Crypto, cs: ClientSetup, ss: ServerSetup)
    requires Lawful(k) && HonestPair(k, cs, ss)
    ensures Continue(k, StartClient(k, cs).0, HonestServer(k, cs, ss), HonestServerFirst(k, cs, ss))
      == (Success(cs.username, cs.authzid, Some(HonestServerFinal(k, cs, ss))), Success(cs.username, cs.authzid, None))
  {
    ServerFirstHeard(k, cs, ss);
    SecondStep(k, cs, ss, Hear(HonestServerFirst(k, cs, ss)));
    ThirdStep(k, cs, ss);
    ServerFinalHeard(k, cs, ss);
    FourthStep(k, cs, ss, Hear(HonestServerFinal(k, cs, ss)));
  }

  /** Honest run: the server succeeds with the client's identity and the client with the server's
      signature over the auth message both built. */
  lemma HonestRun(k: Crypto, cs: ClientSetup, ss: ServerSetup)
    requires Lawful(k) && HonestPair(k, cs, ss)
    ensures Exchange(k, cs, ss)
      == (Success(cs.username, cs.authzid, Some(HonestServerFinal(k, cs, ss))), Success(cs.username, cs.authzid, None))
  {
    var c := StartClient(k, cs).0;
    assert c.gs2Header + c.bare != "" by { assert |c.bare| >= 2; }
    FirstStep(k, cs, ss);
    HonestContinuation(k, cs, ss);
  }
}
