/** Exactly which first messages a SCRAM server answers, and exactly when an honest exchange succeeds. */
module ScramOutcomes {
  import opened Text
  import opened Bytes
  import opened ScramMessages
  import opened Scram
  import opened ScramHonest

  // ---- Values that do not fit are not parsed

  lemma {:induction false} SpanShort(a: string, b: string, p: char -> bool)
    requires !All(a, p)
    ensures Span(a + b, p) < |a| && !p(a[Span(a + b, p)]) && (a + b)[Span(a + b, p)] == a[Span(a + b, p)]
  {
    if p(a[0]) {
      assert (a + b)[1..] == a[1..] + b;
      assert a == [a[0]] + a[1..];
      AllConcat([a[0]], a[1..], p);
      SpanShort(a[1..], b, p);
    }
  }

  /** A value with a foreign character is cut short, and what follows is no comma. */
  lemma BadValueCut(name: string, value: string, rest: string, p: char -> bool)
    requires ',' !in value && (value == "" || !All(value, p)) && rest != "" && !p(rest[0])
    ensures var f := Field(name + value + rest, name, p);
      f.Some? ==> f.value.1 != "" && f.value.1[0] != ','
  {
    var s := name + value + rest;
    assert s == name + (value + rest);
    SkipOf(name, value + rest);
    if value == "" {
      assert value + rest == rest;
    } else {
      SpanShort(value, rest, p);
      var n := Span(value + rest, p);
      assert value[n] in value;
    }
  }

  lemma BadUsernameRejected(username: string, nonce: string)
    requires !IsName(username)
    ensures MatchBare(ClientBare(username, nonce)) == None
  {
    EscapedIsValue(username);
    EscapedShape(username);
    var rest := ",r=" + nonce;
    assert ClientBare(username, nonce) == "n=" + Escape(username) + rest;
    BadValueCut("n=", Escape(username), rest, IsValueChar);
  }

  lemma BadBindingNameRejected(cs: ClientSetup, rest: string)
    requires cs.channelBinding && !BindingNameOk(cs) && ',' !in cs.cbType && rest != "" && rest[0] == ','
    ensures MatchGs2(CbFlag(cs) + rest) == None
  {
    var s := CbFlag(cs) + rest;
    assert s == "p=" + cs.cbType + rest && s[0] == 'p';
    BadValueCut("p=", cs.cbType, rest, IsBindingNameChar);
    var f := MatchFlag(s);
    if f.Some? {
      assert !("," <= f.value.1);
    }
  }

  lemma BadAuthzid(authzid: string, bare: string)
    requires !AuthzidOk(authzid)
    ensures var f := MatchAuthzid(AuthzidField(authzid) + "," + bare);
      f.Some? ==> f.value.1 != "" && f.value.1[0] != ','
  {
    EscapedIsValue(authzid);
    EscapedShape(authzid);
    var s := AuthzidField(authzid) + "," + bare;
    assert s == "a=" + Escape(authzid) + ("," + bare);
    assert "a=" <= s;
    BadValueCut("a=", Escape(authzid), "," + bare, IsValueChar);
  }

  lemma BadAuthzidRejected(cs: ClientSetup, bare: string)
    requires BindingNameOk(cs) && !AuthzidOk(cs.authzid)
    ensures MatchGs2(Gs2(cs) + bare) == None
  {
    var rest1 := AuthzidField(cs.authzid) + "," + bare;
    var rest := "," + rest1;
    assert Gs2(cs) + bare == CbFlag(cs) + rest;
    FlagParses(cs, rest);
    SkipOf(",", rest1);
    BadAuthzid(cs.authzid, bare);
    var f := MatchAuthzid(rest1);
    assert f.Some? ==> !("," <= f.value.1);
  }

  lemma EmptyNonceRejected(username: string)
    requires IsName(username)
    ensures MatchBare(ClientBare(username, "")) == None
  {
    EscapedIsValue(username);
    assert ClientBare(username, "") == "n=" + Escape(username) + ",r=";
    FieldOf("n=", Escape(username), ",r=", IsValueChar);
    SkipOf(",r=", "");
    assert ",r=" == ",r=" + "";
  }

  /** A final line feed is dropped from a client's nonce. */
  lemma LineFeedNonceShortened(username: string, value: string)
    requires IsName(username) && value != "" && All(value, IsValueChar)
    ensures MatchBare(ClientBare(username, value + "\n")) == Some((Escape(username), value))
  {
    EscapedIsValue(username);
    var rest := ",r=" + value + "\n";
    assert ClientBare(username, value + "\n") == "n=" + Escape(username) + rest;
    FieldOf("n=", Escape(username), rest, IsValueChar);
    FieldOf(",r=", value, "\n", IsValueChar);
  }

  lemma BareStarts(username: string, nonce: string)
    ensures MandatoryExtension(ClientBare(username, nonce), 'n') == Some((false, ClientBare(username, nonce)))
  {
    assert ClientBare(username, nonce)[0] == 'n';
  }

  /** A nonce that is used as it is though it does not fit ends in a line feed. */
  lemma NonceNotOk(k: Crypto, raw: string) returns (value: string)
    requires !NonceOk(raw)
    ensures raw == value + "\n" && value != "" && All(value, IsValueChar) && FitNonce(k, raw) == raw
    ensures !All(raw, IsValueChar)
  {
    var n := Span(raw, IsValueChar);
    value := raw[..n];
    assert raw == value + raw[n..];
    assert raw[|raw| - 1] == '\n';
  }

  // ---- Which first messages get an answer

  lemma BareOutcome(k: Crypto, cs: ClientSetup)
    requires Lawful(k)
    ensures MatchBare(ClientBare(cs.username, FitNonce(k, cs.rawNonce))).Some?
       <==> IsName(cs.username) && cs.rawNonce != ""
    ensures var m := MatchBare(ClientBare(cs.username, FitNonce(k, cs.rawNonce)));
      m.Some? ==> m.value.0 == Escape(cs.username)
  {
    var nonce := FitNonce(k, cs.rawNonce);
    if !IsName(cs.username) {
      BadUsernameRejected(cs.username, nonce);
    } else if NonceOk(cs.rawNonce) {
      FitNonceIsValue(k, cs.rawNonce);
      if nonce == "" {
        EmptyNonceRejected(cs.username);
      } else {
        BareParses(cs.username, nonce);
      }
    } else {
      var value := NonceNotOk(k, cs.rawNonce);
      LineFeedNonceShortened(cs.username, value);
    }
  }

  lemma Gs2Outcome(cs: ClientSetup, bare: string)
    requires cs.channelBinding ==> ',' !in cs.cbType
    ensures MatchGs2(Gs2(cs) + bare)
      == if BindingNameOk(cs) && AuthzidOk(cs.authzid) then Some((BindingName(cs), SentAuthzid(cs.authzid), bare))
         else None
  {
    if !BindingNameOk(cs) {
      var rest := "," + AuthzidField(cs.authzid) + "," + bare;
      assert Gs2(cs) + bare == CbFlag(cs) + rest;
      BadBindingNameRejected(cs, rest);
    } else if !AuthzidOk(cs.authzid) {
      BadAuthzidRejected(cs, bare);
    } else {
      Gs2Parses(cs, bare);
    }
  }

  /** A server answers a client's first message exactly when user and authorization names are printable
      ASCII without spaces (and the user name not empty), the channel binding type is a proper name, there
      is a nonce, the two ends agree on channel binding, and the database lookup does not raise. */
  lemma FirstMessageAnswered(k: Crypto, cs: ClientSetup, ss: ServerSetup)
    requires Lawful(k) && (cs.channelBinding ==> ',' !in cs.cbType)
    ensures ServerResponse(k, FreshServer(ss), Gs2(cs) + StartClient(k, cs).0.bare).1.Challenge? <==>
      && IsName(cs.username) && AuthzidOk(cs.authzid) && BindingNameOk(cs) && cs.rawNonce != ""
      && BindingsAgree(cs, ss) && Lookup(k, ss, cs.username).Some?
  {
    var bare := ClientBare(cs.username, FitNonce(k, cs.rawNonce));
    var s := Gs2(cs) + bare;
    Gs2Outcome(cs, bare);
    BareOutcome(k, cs);
    BareStarts(cs.username, FitNonce(k, cs.rawNonce));
    var m := MatchClientFirst(s);
    if m.Some? {
      assert s[..|s| - |bare|] == Gs2(cs);
      BindingAcceptedIff(cs, ss, m.value);
      UnescapeEscape(cs.username);
    }
  }

  // ---- When an honest exchange succeeds

  /** The pattern for nonces lets a final line feed through. A server nonce made that way makes a first
      message that no client can parse. */
  lemma LineFeedNonceBreaks(k: Crypto, value: string, clientNonce: string, salt: string, iterations: nat)
    requires value != "" && All(value, IsValueChar) && All(clientNonce, IsValueChar)
    ensures FitNonce(k, value + "\n") == value + "\n"
    ensures MatchServerFirst(ServerFirstMessage(k, clientNonce + (value + "\n"), salt, iterations)) == None
  {
    SpanOf(value, "\n", IsValueChar);
    var rest := "\n" + (",s=" + k.encode64(salt) + ",i=" + Decimal(iterations));
    var both := clientNonce + value;
    AllConcat(clientNonce, value, IsValueChar);
    var message := ServerFirstMessage(k, clientNonce + (value + "\n"), salt, iterations);
    assert message == "r=" + both + rest;
    assert message[0] == 'r';
    FieldOf("r=", both, rest, IsValueChar);
  }

  /** Nor can it parse one with an empty salt. */
  lemma EmptySaltBreaks(k: Crypto, nonce: string, iterations: nat)
    requires Lawful(k) && nonce != "" && All(nonce, IsValueChar)
    ensures MatchServerFirst(ServerFirstMessage(k, nonce, "", iterations)) == None
  {
    var after := ",i=" + Decimal(iterations);
    var rest := ",s=" + after;
    var message := ServerFirstMessage(k, nonce, "", iterations);
    assert k.encode64("") == "";
    assert message == "r=" + nonce + rest && message[0] == 'r';
    FieldOf("r=", nonce, rest, IsValueChar);
    NoSaltField(after);
  }

  lemma NoSaltField(after: string)
    requires after != "" && after[0] == ','
    ensures Field(",s=" + after, ",s=", IsBase64Char) == None
  {
    SkipOf(",s=", after);
    assert Span(after, IsBase64Char) == 0;
  }

  predicate BothSucceed(replies: (Reply, Reply)) {
    replies.0.Success? && replies.1.Success?
  }

  /** A nonce that begins a parsed one has only value characters. */
  lemma ForeignNonceRefused(k: Crypto, c: Client, message: string)
    requires c.serverFirst.None? && !All(c.cNonce, IsValueChar)
    ensures !ClientChallenge(k, c, Hear(message)).1.Response?
  {
    var m := MatchServerFirst(message);
    if m.Some? {
      NoForeignPrefix(c.cNonce, m.value.nonce, IsValueChar);
    }
  }

  lemma NoForeignPrefix(a: string, b: string, p: char -> bool)
    requires !All(a, p) && All(b, p)
    ensures !(a <= b)
  {
  }

  lemma BadClientNonceFails(k: Crypto, cs: ClientSetup, ss: ServerSetup)
    requires !NonceOk(cs.rawNonce)
    ensures !BothSucceed(Exchange(k, cs, ss))
  {
    var value := NonceNotOk(k, cs.rawNonce);
    var (c, m1) := StartClient(k, cs);
    var (s, m2) := StartServer(k, FreshServer(ss), m1.data.value);
    if m2.Challenge? {
      ForeignNonceRefused(k, c, m2.data1);
    }
  }

  lemma NoNonceFails(k: Crypto, cs: ClientSetup, ss: ServerSetup)
    requires Lawful(k) && HonestParties(k, cs, ss) && cs.rawNonce == ""
    ensures !BothSucceed(Exchange(k, cs, ss))
  {
    FirstMessageFails(k, cs, ss);
  }

  lemma FirstMessageFails(k: Crypto, cs: ClientSetup, ss: ServerSetup)
    requires Lawful(k) && BindingNameOk(cs) && cs.rawNonce == ""
    ensures !StartServer(k, FreshServer(ss), StartClient(k, cs).1.data.value).1.Challenge?
  {
    var c := StartClient(k, cs).0;
    assert c.gs2Header + c.bare != "" by { assert |c.bare| >= 2; }
    assert cs.channelBinding ==> ',' !in cs.cbType by {
      assert !IsBindingNameChar(',');
    }
    FirstMessageAnswered(k, cs, ss);
  }

  lemma FirstAnswered(k: Crypto, cs: ClientSetup, ss: ServerSetup)
    requires Lawful(k) && HonestParties(k, cs, ss) && cs.rawNonce != "" && NonceOk(cs.rawNonce)
    ensures StartServer(k, FreshServer(ss), StartClient(k, cs).1.data.value)
         == (HonestServer(k, cs, ss), Challenge(HonestServerFirst(k, cs, ss)))
  {
    var c := StartClient(k, cs).0;
    assert c.gs2Header + c.bare != "" by { assert |c.bare| >= 2; }
    FirstStep(k, cs, ss);
  }

  /** A client that does not answer the server's first message does not succeed. */
  lemma RefusedFails(k: Crypto, c: Client, s: Server, message: string)
    requires !ClientChallenge(k, c, Hear(message)).1.Response?
    ensures !BothSucceed(Continue(k, c, s, message))
  {
  }

  lemma UnparsedRefused(k: Crypto, c: Client, message: string)
    requires c.serverFirst.None? && MatchServerFirst(message) == None
    ensures !ClientChallenge(k, c, Hear(message)).1.Response?
  {
  }

  /** A first message of the server that does not parse ends the exchange. */
  lemma UnparsedFails(k: Crypto, cs: ClientSetup, ss: ServerSetup)
    requires Lawful(k) && HonestParties(k, cs, ss) && cs.rawNonce != "" && NonceOk(cs.rawNonce)
    requires MatchServerFirst(HonestServerFirst(k, cs, ss)) == None
    ensures !BothSucceed(Exchange(k, cs, ss))
  {
    var (c, m1) := StartClient(k, cs);
    FirstAnswered(k, cs, ss);
    UnparsedRefused(k, c, HonestServerFirst(k, cs, ss));
    RefusedFails(k, c, HonestServer(k, cs, ss), HonestServerFirst(k, cs, ss));
  }

  lemma UnfitFails(k: Crypto, cs: ClientSetup, ss: ServerSetup)
    requires Lawful(k) && HonestParties(k, cs, ss) && !Fit(k, cs, ss)
    ensures !BothSucceed(Exchange(k, cs, ss))
  {
    if cs.rawNonce == "" {
      NoNonceFails(k, cs, ss);
    } else if !NonceOk(cs.rawNonce) {
      BadClientNonceFails(k, cs, ss);
    } else {
      FitNonceIsValue(k, cs.rawNonce);
      var x := SharedSecret(k, cs, ss);
      if !NonceOk(ss.rawNonce) {
        var value := NonceNotOk(k, ss.rawNonce);
        LineFeedNonceBreaks(k, value, FitNonce(k, cs.rawNonce), x.salt, x.iterations);
      } else {
        FitNonceIsValue(k, ss.rawNonce);
        AllConcat(FitNonce(k, cs.rawNonce), FitNonce(k, ss.rawNonce), IsValueChar);
        EmptySaltBreaks(k, CombinedNonce(k, cs, ss), x.iterations);
      }
      UnparsedFails(k, cs, ss);
    }
  }

  /** Two ends that agree on names, channel binding and password both succeed if and only if the client's
      nonce is there, neither nonce is one that is sent with a final line feed, and the salt is not empty. */
  lemma HonestRunIff(k: Crypto, cs: ClientSetup, ss: ServerSetup)
    requires Lawful(k) && HonestParties(k, cs, ss)
    ensures BothSucceed(Exchange(k, cs, ss)) <==>
      cs.rawNonce != "" && NonceOk(cs.rawNonce) && NonceOk(ss.rawNonce) && SharedSecret(k, cs, ss).salt != ""
  {
    if Fit(k, cs, ss) {
      HonestRun(k, cs, ss);
    } else {
      UnfitFails(k, cs, ss);
    }
  }
}
