/** The two SCRAM authenticators as state machines (pyxmpp2/sasl/scram.py). */
module Scram {
  import opened Text
  import opened Bytes
  import opened ScramMessages

  /** The foreign functions: HMAC, H, SASLprep (None for a StringprepError) and base64 (None for a
      decoding error). */
  datatype Crypto = Crypto(digestSize: nat, hmac: (string, string) -> string, h: string -> string,
                           normalize: string -> Option<string>,
                           encode64: string -> string, decode64: string -> Option<string>)

  /** All that is assumed of them. */
  ghost predicate Lawful(k: Crypto) {
    && k.digestSize > 0
    && (forall a, b :: |k.hmac(a, b)| == k.digestSize && All(k.hmac(a, b), IsByte))
    && (forall a :: k.decode64(k.encode64(a)) == Some(a))
    && (forall a :: All(k.encode64(a), IsBase64Char) && (k.encode64(a) == "" <==> a == ""))
  }

  // ---- Hi

  const INT_1 := "\0\0\0" + [1 as char]

  /** U1, U2, ... of section 2.2 of RFC 5802. */
  function U(k: Crypto, str: string, salt: string, j: nat): string
    requires j > 0
  {
    if j == 1 then k.hmac(str, salt + INT_1) else k.hmac(str, U(k, str, salt, j - 1))
  }

  /** U1 XOR ... XOR Ui. For i = 0, which the RFC does not allow, the loop still gives U1. */
  function Hi(k: Crypto, str: string, salt: string, i: nat): string {
    if i <= 1 then U(k, str, salt, 1) else Xor(Hi(k, str, salt, i - 1), U(k, str, salt, i))
  }

  method ComputeHi(k: Crypto, str: string, salt: string, i: nat) returns (result: string)
    ensures result == Hi(k, str, salt, i)
  {
    var u := k.hmac(str, salt + INT_1);
    result := u;
    var j := 2;
    while j < i + 1
      invariant 2 <= j && (j <= i + 1 || j == 2)
      invariant u == U(k, str, salt, j - 1) && result == Hi(k, str, salt, j - 1)
    {
      u := k.hmac(str, u);
      result := Xor(result, u);
      j := j + 1;
    }
  }

  // ---- Pieces both sides compute

  function ClientKey(k: Crypto, salted: string): string { k.hmac(salted, "Client Key") }
  function ServerKey(k: Crypto, salted: string): string { k.hmac(salted, "Server Key") }

  /** A nonce from the factory, made fit for a message. */
  function FitNonce(k: Crypto, raw: string): string {
    if MatchesValueChars(raw) then raw else k.encode64(raw)
  }

  // ---- The client

  /** The mechanism and the properties passed to start. */
  datatype ClientSetup = ClientSetup(channelBinding: bool, username: string, password: string, authzid: string,
                                     rawNonce: string, cbType: string, cbData: string, plusEnabled: bool)

  datatype Client = Client(setup: ClientSetup, cNonce: string, gs2Header: string, bare: string,
                           password: Option<string>, serverFirst: Option<string>, salted: Option<string>,
                           authMessage: string, finished: bool)

  /** What an authenticator call gives back: an answer to send, failure, success with the identity,
      or an exception. */
  datatype Reply = Response(data: Option<string>) | Challenge(data1: string) | Failure(reason: string)
                 | Success(username: string, authzid: string, final: Option<string>) | Raised

  function CbFlag(s: ClientSetup): string {
    if s.channelBinding then "p=" + s.cbType else if s.plusEnabled then "y" else "n"
  }

  function AuthzidField(authzid: string): string {
    if authzid != "" then "a=" + Escape(authzid) else ""
  }

  function Gs2(s: ClientSetup): string {
    CbFlag(s) + "," + AuthzidField(s.authzid) + ","
  }

  function ClientBare(username: string, nonce: string): string {
    "n=" + Escape(username) + "," + ("r=" + nonce)
  }

  function StartClient(k: Crypto, s: ClientSetup): (Client, Reply) {
    var nonce := FitNonce(k, s.rawNonce);
    var c := Client(s, nonce, Gs2(s), ClientBare(s.username, nonce), Some(s.password), None, None, "", false);
    (c, Response(Some(c.gs2Header + c.bare)))
  }

  function CbInput(c: Client): string {
    c.gs2Header + (if c.setup.channelBinding then c.setup.cbData else "")
  }

  function WithoutProof(k: Crypto, c: Client, nonce: string): string {
    "c=" + k.encode64(CbInput(c)) + ",r=" + nonce
  }

  function ClientFinalMessage(withoutProof: string, proof: string): string {
    withoutProof + "," + ("p=" + proof)
  }

  function AuthMessage(bare: string, serverFirst: string, withoutProof: string): string {
    bare + "," + serverFirst + "," + withoutProof
  }

  /** A message from the server with what the two server message patterns make of it. */
  datatype Heard = Heard(data: string, first: Option<ServerFirst>, final: Option<ServerFinal>)

  function Hear(data: string): Heard {
    Heard(data, MatchServerFirst(data), MatchServerFinal(data))
  }

  function HearMaybe(data: Option<string>): Option<Heard> {
    if data.None? then None else Some(Hear(data.value))
  }

  /** challenge. The sources are Python 2, where the error of a2b_base64 is no ValueError and so gets past
      the handler. */
  function ClientChallenge(k: Crypto, c: Client, h: Heard): (Client, Reply) {
    if h.data == "" then (c, Failure("bad-challenge"))
    else if c.serverFirst.Some? then FinalChallenge(k, c, h.final)
    else match h.first
      case None => (c, Failure("bad-challenge"))
      case Some(m) => FirstChallenge(k, c.(serverFirst := Some(h.data)), m)
  }

  function FirstChallenge(k: Crypto, c: Client, m: ServerFirst): (Client, Reply)
    requires c.serverFirst.Some?
  {
    if m.extension || !(c.cNonce <= m.nonce) then (c, Failure("bad-challenge"))
    else match k.decode64(m.salt)
      case None => (c, Raised)
      case Some(salt) => MakeResponse(k, c, m.nonce, salt, m.Count())
  }

  /** _make_response */
  function MakeResponse(k: Crypto, c: Client, nonce: string, salt: string, iterations: nat): (Client, Reply)
    requires c.serverFirst.Some?
  {
    if c.password.None? || k.normalize(c.password.value).None? then (c, Raised) else
      var salted := Hi(k, k.normalize(c.password.value).value, salt, iterations);
      var withoutProof := WithoutProof(k, c, nonce);
      var auth := AuthMessage(c.bare, c.serverFirst.value, withoutProof);
      var key := ClientKey(k, salted);
      var proof := Xor(key, k.hmac(k.h(key), auth));
      (c.(password := None, salted := Some(salted), authMessage := auth),
       Response(Some(ClientFinalMessage(withoutProof, k.encode64(proof)))))
  }

  function Signature(k: Crypto, salted: string, auth: string): string {
    k.hmac(ServerKey(k, salted), auth)
  }

  /** _final_challenge */
  function FinalChallenge(k: Crypto, c: Client, final: Option<ServerFinal>): (Client, Reply) {
    if c.finished then (c, Failure("extra-challenge"))
    else match final
      case None => (c, Failure("bad-challenge"))
      case Some(Error(error)) => (c, Failure("scram-" + error))
      case Some(Verifier(verifier)) =>
        if c.salted.None? || k.decode64(verifier).None? then (c, Raised)
        else if Signature(k, c.salted.value, c.authMessage) != k.decode64(verifier).value
        then (c, Failure("bad-succes"))
        else (c.(finished := true), Response(None))
  }

  /** finish; without data the regular expression raises. */
  function Finish(k: Crypto, c: Client, h: Option<Heard>): (Client, Reply) {
    var done := Success(c.setup.username, c.setup.authzid, None);
    if c.serverFirst.None? then (c, Failure("bad-success"))
    else if c.finished then (c, done)
    else if h.None? then (c, Raised)
    else
      var (c1, ret) := FinalChallenge(k, c, h.value.final);
      if ret.Failure? || ret.Raised? then (c1, ret)
      else if c1.finished then (c1, done)
      else (c1, Failure("bad-success"))
  }

  // ---- The server

  /** What the password database has for a user. SaltedNothing is the salted format with no password,
      where the code runs into an unset variable. */
  datatype Stored =
    | Missing
    | SaltedNothing
    | Plain(password: string)
    | Salted(salt: string, iterations: nat, salted: string)
    | Keys(salt: string, iterations: nat, storedKey: string, serverKey: string)

  /** The mechanism and properties. Random draws and the database are inputs. */
  datatype ServerSetup = ServerSetup(channelBinding: bool, cbTable: map<string, string>, plusEnabled: bool,
                                     rawNonce: string, salt: string, randomSalt: string, iterations: nat,
                                     database: string -> Stored)

  datatype Server = Server(setup: ServerSetup, bare: string, serverFirst: string, nonce: string,
                           cbName: Option<string>, gs2Header: string, keys: Option<(string, string)>,
                           username: string, authzid: string)

  function FreshServer(s: ServerSetup): Server {
    Server(s, "", "", "", None, "", None, "", "")
  }

  /** start: whatever an exchange before it left, only the first message and the result are reset. */
  function StartServer(k: Crypto, s: Server, initial: string): (Server, Reply) {
    var s0 := s.(bare := "", username := "", authzid := "");
    if initial == "" then (s0, Challenge("")) else ServerResponse(k, s0, initial)
  }

  /** response: the first message is recognised by there being none yet. */
  function ServerResponse(k: Crypto, s: Server, response: string): (Server, Reply) {
    ServerHears(k, s, Listen(response))
  }

  /** What the two client message patterns make of a response. */
  datatype Said = Said(first: Option<ClientFirst>, final: Option<ClientFinal>)

  function Listen(response: string): Said {
    Said(MatchClientFirst(response), MatchClientFinal(response))
  }

  function ServerHears(k: Crypto, s: Server, said: Said): (Server, Reply) {
    if s.bare != "" then FinalResponse(k, s, said.final) else FirstResponse(k, s, said.first)
  }

  /** The channel binding checks of the first message. */
  predicate BindingAcceptable(s: ServerSetup, m: ClientFirst) {
    if s.channelBinding then m.cbName.Some? && m.cbName.value in s.cbTable
    else if "y" <= m.gs2Header then !s.plusEnabled
    else !("p" <= m.gs2Header)
  }

  datatype Credentials = Credentials(salt: string, iterations: nat, keys: Option<(string, string)>)

  function KeysOf(k: Crypto, salted: string): (string, string) {
    (k.h(ClientKey(k, salted)), ServerKey(k, salted))
  }

  /** Salt, iteration count and keys, None for an exception. A missing user gets a salt all the same. */
  function Lookup(k: Crypto, s: ServerSetup, username: string): Option<Credentials> {
    var salt := if s.salt != "" then s.salt else s.randomSalt;
    match s.database(username)
    case SaltedNothing => None
    case Salted(salt, iterations, salted) => Some(Credentials(salt, iterations, Some(KeysOf(k, salted))))
    case Keys(salt, iterations, storedKey, serverKey) =>
      Some(Credentials(salt, iterations, Some((storedKey, serverKey))))
    case Plain(password) =>
      (match k.normalize(password)
       case None => None
       case Some(str) => Some(Credentials(salt, s.iterations, Some(KeysOf(k, Hi(k, str, salt, s.iterations))))))
    case Missing =>
      if k.normalize("").None? then None else Some(Credentials(salt, s.iterations, None))
  }

  function ServerFirstMessage(k: Crypto, nonce: string, salt: string, iterations: nat): string {
    "r=" + nonce + ",s=" + k.encode64(salt) + ",i=" + Decimal(iterations)
  }

  /** _handle_first_response */
  function FirstResponse(k: Crypto, s: Server, first: Option<ClientFirst>): (Server, Reply) {
    match first
    case None => (s, Failure("not-authorized"))
    case Some(m) => FirstAnswer(k, s, m)
  }

  function FirstAnswer(k: Crypto, s: Server, m: ClientFirst): (Server, Reply) {
    if m.extension || !BindingAcceptable(s.setup, m) then (s, Failure("not-authorized")) else
      var s1 := s.(authzid := if m.authzid.Some? then Unescape(m.authzid.value) else "",
                   username := Unescape(m.username));
      match Lookup(k, s.setup, s1.username)
      case None => (s1, Raised)
      case Some(cred) =>
        var nonce := m.nonce + FitNonce(k, s.setup.rawNonce);
        var message := ServerFirstMessage(k, nonce, cred.salt, cred.iterations);
        (s1.(keys := cred.keys, nonce := nonce, cbName := m.cbName, gs2Header := m.gs2Header,
             bare := m.bare, serverFirst := message),
         Challenge(message))
  }

  /** _handle_final_response */
  function FinalResponse(k: Crypto, s: Server, final: Option<ClientFinal>): (Server, Reply) {
    var no := (s, Failure("not-authorized"));
    match final
    case None => no
    case Some(m) =>
      if m.nonce != s.nonce then no else
      match k.decode64(m.cb)
      case None => (s, Raised)
      case Some(cbInput) =>
        if !(s.gs2Header <= cbInput) then no
        else if s.cbName.Some? && s.cbName.value !in s.setup.cbTable then (s, Raised)
        else if s.cbName.Some? && cbInput[|s.gs2Header|..] != s.setup.cbTable[s.cbName.value] then no
        else match k.decode64(m.proof)
          case None => (s, Raised)
          case Some(proof) =>
            if s.keys.None? then no else
              var (storedKey, serverKey) := s.keys.value;
              var auth := AuthMessage(s.bare, s.serverFirst, m.withoutProof);
              if k.h(Xor(k.hmac(storedKey, auth), proof)) != storedKey then no
              else (s, Success(s.username, s.authzid, Some("v=" + k.encode64(k.hmac(serverKey, auth)))))
  }
}
