/** SCRAM as RFC 5802 words it. Nothing in the definitions here is shared with the authenticators, which are
    compared with them. */
module Rfc5802 {
  import opened Text
  import opened Bytes
  import M = ScramMessages
  import S = Scram

  // ---- Section 5.1: names

  function SaslName(s: string): string {
    if s == "" then "" else
      (if s[0] == ',' then "=2C" else if s[0] == '=' then "=3D" else [s[0]]) + SaslName(s[1..])
  }

  /** Read from left to right; an equals sign that begins neither code stands for itself. */
  function FromSaslName(s: string): string {
    if s == "" then ""
    else if "=2C" <= s then "," + FromSaslName(s[3..])
    else if "=3D" <= s then "=" + FromSaslName(s[3..])
    else [s[0]] + FromSaslName(s[1..])
  }

  // ---- Section 2.2: Hi

  function Us(k: S.Crypto, str: string, salt: string, n: nat): (us: seq<string>)
    requires n > 0
    ensures |us| == n
  {
    if n == 1 then [k.hmac(str, salt + "\0\0\0" + [1 as char])] else
      var before := Us(k, str, salt, n - 1);
      before + [k.hmac(str, before[n - 2])]
  }

  function XorAll(us: seq<string>): string
    requires us != []
  {
    if |us| == 1 then us[0] else Xor(XorAll(us[..|us| - 1]), us[|us| - 1])
  }

  /** A count of 0, which the RFC does not allow, is taken for 1. */
  function Hi(k: S.Crypto, str: string, salt: string, i: nat): string {
    XorAll(Us(k, str, salt, if i == 0 then 1 else i))
  }

  // ---- Section 3: keys, proof and signature

  function ClientKey(k: S.Crypto, salted: string): string {
    k.hmac(salted, "Client Key")
  }

  function StoredKey(k: S.Crypto, salted: string): string {
    k.h(k.hmac(salted, "Client Key"))
  }

  function ServerKey(k: S.Crypto, salted: string): string {
    k.hmac(salted, "Server Key")
  }

  function AuthMessage(clientFirstBare: string, serverFirst: string, clientFinalWithoutProof: string): string {
    clientFirstBare + "," + serverFirst + "," + clientFinalWithoutProof
  }

  function ClientProof(k: S.Crypto, salted: string, auth: string): string {
    Xor(ClientKey(k, salted), k.hmac(StoredKey(k, salted), auth))
  }

  /** H of the client signature and the proof combined is the stored key. */
  predicate ProofHolds(k: S.Crypto, storedKey: string, auth: string, proof: string) {
    k.h(Xor(k.hmac(storedKey, auth), proof)) == storedKey
  }

  // ---- Sections 5 to 7: messages

  predicate ValueChars(s: string) {
    forall c <- s :: '!' <= c <= '~' && c != ','
  }

  /** A nonce from the factory: as it is if it can be sent, but for a final line feed, and else encoded. */
  function OwnNonce(k: S.Crypto, raw: string): string {
    if (raw != "" && ValueChars(raw))
       || (|raw| > 1 && raw[|raw| - 1] == '\n' && ValueChars(raw[..|raw| - 1])) then raw
    else k.encode64(raw)
  }

  function Gs2Header(s: S.ClientSetup): string {
    (if s.channelBinding then "p=" + s.cbType else if s.plusEnabled then "y" else "n") + ","
    + (if s.authzid == "" then "" else "a=" + SaslName(s.authzid)) + ","
  }

  function ClientFirstBare(k: S.Crypto, s: S.ClientSetup): string {
    "n=" + SaslName(s.username) + ",r=" + OwnNonce(k, s.rawNonce)
  }

  function ServerFirst(k: S.Crypto, nonce: string, salt: string, iterations: nat): string {
    "r=" + nonce + ",s=" + k.encode64(salt) + ",i=" + Decimal(iterations)
  }

  function ClientFinalWithoutProof(k: S.Crypto, s: S.ClientSetup, nonce: string): string {
    "c=" + k.encode64(if s.channelBinding then Gs2Header(s) + s.cbData else Gs2Header(s)) + ",r=" + nonce
  }

  // ---- The authenticators agree

  lemma {:induction false} EscapeIsSaslName(s: string)
    ensures M.Escape(s) == SaslName(s)
  {
    if s != "" {
      assert s == [s[0]] + s[1..];
      M.EscapeHead(s[0], s[1..]);
      EscapeIsSaslName(s[1..]);
    }
  }

  // ---- unescape in one pass

  lemma FirstPassHead(s: string)
    requires s != "" && !("=2C" <= s)
    ensures Replace(s, "=2C", ",") == [s[0]] + Replace(s[1..], "=2C", ",")
  {
  }

  lemma SecondPassHead(c: char, rest: string)
    requires !("=3D" <= [c] + rest)
    ensures Replace([c] + rest, "=3D", "=") == [c] + Replace(rest, "=3D", "=")
  {
    assert ([c] + rest)[1..] == rest;
  }

  lemma FirstPassOfCode(s: string)
    requires "=3D" <= s
    ensures Replace(s, "=2C", ",") == "=3D" + Replace(s[3..], "=2C", ",")
  {
    assert s == "=3D" + s[3..];
    M.ReplaceSkips("=3D", s[3..], "=2C", ",");
  }

  /** The first pass makes no new "=3D". */
  lemma NoNewCode(s: string)
    requires "=3D" <= Replace(s, "=2C", ",")
    ensures "=3D" <= s
  {
    var r := Replace(s, "=2C", ",");
    assert r[0] == '=' && r[1] == '3' && r[2] == 'D';
    assert !("=2C" <= s) && s[0] == '=';
    var s1, r1 := s[1..], r[1..];
    assert r1 == Replace(s1, "=2C", ",") && r1[0] == '3' && r1[1] == 'D';
    assert s1[0] == '3' && !("=2C" <= s1);
    var s2, r2 := s1[1..], r1[1..];
    assert r2 == Replace(s2, "=2C", ",") && r2[0] == 'D';
    assert s2[0] == 'D';
    assert s[1] == s1[0] && s[2] == s2[0];
  }

  lemma {:induction false} UnescapeIsFromSaslName(s: string)
    ensures M.Unescape(s) == FromSaslName(s)
    decreases |s|
  {
    if s == "" {
    } else if "=2C" <= s {
      UnescapeIsFromSaslName(s[3..]);
      var r := Replace(s[3..], "=2C", ",");
      assert ([','] + r)[0] == ',';
      SecondPassHead(',', r);
    } else if "=3D" <= s {
      UnescapeIsFromSaslName(s[3..]);
      FirstPassOfCode(s);
      var r := Replace(s[3..], "=2C", ",");
      assert ("=3D" + r)[3..] == r;
    } else {
      UnescapeIsFromSaslName(s[1..]);
      FirstPassHead(s);
      var r := Replace(s[1..], "=2C", ",");
      if "=3D" <= [s[0]] + r {
        NoNewCode(s);
      }
      SecondPassHead(s[0], r);
    }
  }

  // ---- Hi, nonces and messages

  lemma {:induction false} HiIsXorOfUs(k: S.Crypto, str: string, salt: string, n: nat)
    requires n > 0
    ensures S.U(k, str, salt, n) == Us(k, str, salt, n)[n - 1] && S.Hi(k, str, salt, n) == XorAll(Us(k, str, salt, n))
  {
    if n > 1 {
      HiIsXorOfUs(k, str, salt, n - 1);
      var us := Us(k, str, salt, n);
      assert us[..n - 1] == Us(k, str, salt, n - 1);
    } else {
      assert salt + S.INT_1 == salt + "\0\0\0" + [1 as char];
    }
  }

  lemma HiAgrees(k: S.Crypto, str: string, salt: string, i: nat)
    ensures S.Hi(k, str, salt, i) == Hi(k, str, salt, i)
  {
    HiIsXorOfUs(k, str, salt, if i == 0 then 1 else i);
  }

  lemma ValueCharsAre(s: string)
    ensures ValueChars(s) <==> All(s, M.IsValueChar)
  {
    assert forall i :: 0 <= i < |s| ==> s[i] in s;
  }

  lemma NonceAgrees(k: S.Crypto, raw: string)
    ensures S.FitNonce(k, raw) == OwnNonce(k, raw)
  {
    var n, m := Span(raw, M.IsValueChar), |raw| - 1;
    ValueCharsAre(raw);
    ValueCharsAre(raw[..n]);
    assert raw + "" == raw;
    if ValueChars(raw) {
      SpanOf(raw, "", M.IsValueChar);
    }
    if m > 0 && raw[m] == '\n' {
      ValueCharsAre(raw[..m]);
      if ValueChars(raw[..m]) {
        assert raw == raw[..m] + "\n";
        SpanOf(raw[..m], "\n", M.IsValueChar);
      }
    }
    if M.MatchesValueChars(raw) {
      assert raw == raw[..n] + raw[n..];
      assert raw[n..] == "" ==> raw[..n] == raw;
      assert raw[n..] == "\n" ==> n == m && raw[m] == '\n';
    }
  }

  lemma MessagesAgree(k: S.Crypto, s: S.ClientSetup, nonce: string)
    ensures var c := S.StartClient(k, s).0;
      && c.gs2Header == Gs2Header(s) && c.bare == ClientFirstBare(k, s)
      && S.StartClient(k, s).1 == S.Response(Some(Gs2Header(s) + ClientFirstBare(k, s)))
      && S.WithoutProof(k, c, nonce) == ClientFinalWithoutProof(k, s, nonce)
  {
    EscapeIsSaslName(s.authzid);
    EscapeIsSaslName(s.username);
    NonceAgrees(k, s.rawNonce);
    var c := S.StartClient(k, s).0;
    assert c.gs2Header + "" == c.gs2Header;
    assert "n=" + SaslName(s.username) + "," + ("r=" + c.cNonce) == "n=" + SaslName(s.username) + ",r=" + c.cNonce;
  }
}
