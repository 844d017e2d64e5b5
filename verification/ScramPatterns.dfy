/** The message patterns of SCRAM: each parser finds the one way in which its pattern matches, and no other
    text matches (pyxmpp2/sasl/scram.py). A text is put together here from the parts its pattern has; nothing
    is shared with the parsers but the character classes. */
module ScramPatterns {
  import opened Text
  import opened Bytes
  import opened ScramMessages

  predicate Value(s: string) {
    s != "" && forall c <- s :: '\U{21}' <= c <= '\U{2B}' || '\U{2D}' <= c <= '\U{7E}'
  }

  predicate Base64(s: string) {
    && s != ""
    && forall c <- s :: 'a' <= c <= 'z' || 'A' <= c <= 'Z' || '0' <= c <= '9' || c == '/' || c == '+' || c == '='
  }

  /** As the source has it, with the range from 'A' to 'z'. */
  predicate BindingName(s: string) {
    s != "" && forall c <- s :: 'a' <= c <= 'z' || 'A' <= c <= 'z' || '0' <= c <= '9' || c == '.' || c == '-'
  }

  predicate Digits(s: string) {
    s != "" && forall c <- s :: '0' <= c <= '9'
  }

  /** What may follow "m=", up to its comma. */
  predicate Extension(s: string) {
    s != "" && '\0' !in s && '=' !in s
  }

  /** `(?:,.*)?`, and what `$` lets through. */
  predicate Tail(s: string) {
    s == "" || (s[0] == ',' && '\n' !in s)
  }

  predicate End(s: string) {
    s == "" || s == "\n"
  }

  lemma ClassesAre(s: string)
    ensures Value(s) <==> s != "" && All(s, IsValueChar)
    ensures Base64(s) <==> s != "" && All(s, IsBase64Char)
    ensures BindingName(s) <==> s != "" && All(s, IsBindingNameChar)
    ensures Digits(s) <==> s != "" && All(s, IsDigit)
    ensures Extension(s) <==> s != "" && All(s, IsExtensionChar)
  {
    assert forall i :: 0 <= i < |s| ==> s[i] in s;
  }

  lemma EndingFits(tail: string, end: string)
    requires Tail(tail) && End(end)
    ensures ExtensionsToEnd(tail + end)
  {
    var s := tail + end;
    if tail == "" {
      assert s == end;
    } else if end == "" {
      assert s == tail;
      FindAbsent(tail, '\n');
    } else {
      assert s == tail + ['\n'] + "";
      FindSkips(tail, '\n', "");
    }
  }

  lemma EndingSplits(s: string) returns (tail: string, end: string)
    requires ExtensionsToEnd(s)
    ensures s == tail + end && Tail(tail) && End(end)
  {
    if AtEnd(s) {
      tail, end := "", s;
    } else {
      var i := Find(s, '\n');
      tail, end := s[..i], s[i..];
      assert s == tail + end;
      assert i < |s| ==> end == "\n";
    }
  }

  lemma FieldFound(s: string, name: string, p: char -> bool) returns (value: string, rest: string)
    requires Field(s, name, p).Some?
    ensures Field(s, name, p) == Some((value, rest)) && s == name + value + rest && value != "" && All(value, p)
  {
    var f := Field(s, name, p).value;
    value, rest := f.0, f.1;
  }

  // ---- Brackets

  lemma {:induction false} FourAndOne(a: string, b: string, c: string, d: string, e: string)
    ensures (a + (b + (c + d))) + e == a + (b + (c + (d + e)))
  {
  }

  lemma {:induction false} FiveAndOne(a: string, b: string, c: string, d: string, e: string, f: string)
    ensures ((((a + b) + c) + d) + e) + f == (a + b) + ((c + d) + (e + f))
  {
    assert (((a + b) + c) + d) + e == (a + b) + ((c + d) + e);
  }

  lemma {:induction false} TwoAndOne(a: string, b: string, c: string)
    ensures (a + b) + c == a + (b + c)
  {
  }

  // ---- An optional mandatory extension

  function ExtensionText(x: Option<string>): string {
    if x.Some? then "m=" + x.value + "," else ""
  }

  /** The name before the first equals sign after "m=" ends with a comma and `next`. */
  lemma {:induction false} ExtensionAt(s: string, next: char, after: string, n: nat)
    requires s == "m=" + after && n == Span(after, IsExtensionChar)
    requires n >= 3 && n < |after| && after[n] == '=' && after[n - 1] == next && after[n - 2] == ','
    ensures MandatoryExtension(s, next) == Some((true, after[n - 1..]))
  {
    SkipOf("m=", after);
  }

  lemma {:induction false} NoExtensionFits(next: char, rest: string)
    requires |rest| > 1 && rest[0] == next && next != 'm'
    ensures MandatoryExtension(rest, next) == Some((false, rest))
  {
  }

  lemma {:induction false} ExtensionSpans(x: string, next: char, rest: string)
    requires Extension(x) && |rest| > 1 && rest[0] == next && rest[1] == '=' && IsExtensionChar(next)
    ensures var after := x + [','] + rest;
      && Span(after, IsExtensionChar) == |x| + 2 && after[|x|] == ',' && after[|x| + 1] == next
      && after[|x| + 2] == '=' && after[|x| + 1..] == rest
  {
    var head, equals := x + [','] + [next], rest[1..];
    ClassesAre(x);
    SpanOf(head, equals, IsExtensionChar);
    assert head + equals == x + [','] + rest;
  }

  lemma {:induction false} SomeExtensionFits(x: string, next: char, rest: string)
    requires Extension(x) && |rest| > 1 && rest[0] == next && rest[1] == '=' && IsExtensionChar(next)
    ensures MandatoryExtension("m=" + x + "," + rest, next) == Some((true, rest))
  {
    var after := x + [','] + rest;
    ExtensionSpans(x, next, rest);
    assert "m=" + x + "," + rest == "m=" + after;
    ExtensionAt("m=" + after, next, after, |x| + 2);
  }

  lemma ExtensionFits(x: Option<string>, next: char, rest: string)
    requires x.Some? ==> Extension(x.value)
    requires |rest| > 1 && rest[0] == next && rest[1] == '=' && IsExtensionChar(next) && next != 'm'
    ensures MandatoryExtension(ExtensionText(x) + rest, next) == Some((x.Some?, rest))
  {
    if x.Some? {
      SomeExtensionFits(x.value, next, rest);
    } else {
      assert ExtensionText(x) + rest == rest;
      NoExtensionFits(next, rest);
    }
  }

  lemma {:induction false} ExtensionCut(after: string, n: nat) returns (x: string)
    requires 3 <= n <= |after| && All(after[..n], IsExtensionChar) && after[n - 2] == ','
    ensures Extension(x) && after == x + "," + after[n - 1..]
  {
    x := after[..n - 2];
    ClassesAre(x);
    assert forall i :: 0 <= i < n - 2 ==> x[i] == after[..n][i];
  }

  lemma ExtensionFound(s: string, next: char) returns (x: Option<string>)
    requires MandatoryExtension(s, next).Some?
    ensures var (extension, rest) := MandatoryExtension(s, next).value;
      s == ExtensionText(x) + rest && extension == x.Some? && (x.Some? ==> Extension(x.value))
  {
    var (extension, rest) := MandatoryExtension(s, next).value;
    x := None;
    if extension {
      var after := Skip(s, "m=").value;
      var name := ExtensionCut(after, Span(after, IsExtensionChar));
      x := Some(name);
      TwoAndOne("m=", name + ",", rest);
    } else {
      assert ExtensionText(x) + rest == rest;
    }
  }

  // ---- The server's first message

  datatype ServerFirstParts = ServerFirstParts(extension: Option<string>, nonce: string, salt: string,
                                               iterations: string, tail: string, end: string)
  {
    predicate Fits() {
      && (extension.Some? ==> Extension(extension.value)) && Value(nonce) && Base64(salt) && Digits(iterations)
      && Tail(tail) && End(end)
    }

    function Text(): string {
      ExtensionText(extension)
      + ("r=" + nonce + (",s=" + salt + (",i=" + iterations + (tail + end))))
    }
  }

  lemma {:induction false} ServerFirstChain(s: string, extension: bool, rest: string, nonce: string, rest1: string,
                                            salt: string, rest2: string, iterations: string, rest3: string)
    requires MandatoryExtension(s, 'r') == Some((extension, rest))
    requires Field(rest, "r=", IsValueChar) == Some((nonce, rest1))
    requires Field(rest1, ",s=", IsBase64Char) == Some((salt, rest2))
    requires Field(rest2, ",i=", IsDigit) == Some((iterations, rest3)) && ExtensionsToEnd(rest3)
    ensures MatchServerFirst(s) == Some(ServerFirst(extension, nonce, salt, iterations))
  {
  }

  lemma {:induction false} FieldsFit(name: string, value: string, rest: string, p: char -> bool)
    requires value != "" && All(value, p) && (rest == "" || !p(rest[0]))
    ensures Field(name + value + rest, name, p) == Some((value, rest))
  {
    FieldOf(name, value, rest, p);
  }

  lemma TailStarts(tail: string, end: string)
    requires Tail(tail) && End(end)
    ensures tail + end == "" || (tail + end)[0] in ",\n"
  {
    assert tail != "" ==> (tail + end)[0] == tail[0];
    assert tail == "" ==> tail + end == end;
  }

  lemma {:induction false} ServerFieldsFit(s: string, extension: bool, nonce: string, salt: string,
                                           iterations: string, ending: string)
    requires Value(nonce) && Base64(salt) && Digits(iterations)
    requires ExtensionsToEnd(ending) && (ending == "" || ending[0] in ",\n")
    requires MandatoryExtension(s, 'r')
          == Some((extension, "r=" + nonce + (",s=" + salt + (",i=" + iterations + ending))))
    ensures MatchServerFirst(s) == Some(ServerFirst(extension, nonce, salt, iterations))
  {
    var rest2 := ",i=" + iterations + ending;
    var rest1 := ",s=" + salt + rest2;
    ClassesAre(nonce);
    ClassesAre(salt);
    ClassesAre(iterations);
    FieldsFit("r=", nonce, rest1, IsValueChar);
    FieldsFit(",s=", salt, rest2, IsBase64Char);
    FieldsFit(",i=", iterations, ending, IsDigit);
    ServerFirstChain(s, extension, "r=" + nonce + rest1, nonce, rest1, salt, rest2, iterations, ending);
  }

  lemma ServerFirstFits(p: ServerFirstParts)
    requires p.Fits()
    ensures MatchServerFirst(p.Text()) == Some(ServerFirst(p.extension.Some?, p.nonce, p.salt, p.iterations))
  {
    var ending := p.tail + p.end;
    TailStarts(p.tail, p.end);
    EndingFits(p.tail, p.end);
    ExtensionFits(p.extension, 'r', "r=" + p.nonce + (",s=" + p.salt + (",i=" + p.iterations + ending)));
    ServerFieldsFit(p.Text(), p.extension.Some?, p.nonce, p.salt, p.iterations, ending);
  }

  lemma ServerFirstFound(s: string) returns (p: ServerFirstParts)
    requires MatchServerFirst(s).Some?
    ensures p.Fits() && s == p.Text()
    ensures MatchServerFirst(s) == Some(ServerFirst(p.extension.Some?, p.nonce, p.salt, p.iterations))
  {
    var extension := ExtensionFound(s, 'r');
    var rest := MandatoryExtension(s, 'r').value.1;
    var nonce, rest1 := FieldFound(rest, "r=", IsValueChar);
    var salt, rest2 := FieldFound(rest1, ",s=", IsBase64Char);
    var iterations, rest3 := FieldFound(rest2, ",i=", IsDigit);
    var tail, end := EndingSplits(rest3);
    ClassesAre(nonce);
    ClassesAre(salt);
    ClassesAre(iterations);
    p := ServerFirstParts(extension, nonce, salt, iterations, tail, end);
  }

  // ---- The client's first message

  datatype ClientFirstParts = ClientFirstParts(cbName: Option<string>, yes: bool, authzid: Option<string>,
                                               extension: Option<string>, username: string, nonce: string,
                                               tail: string, end: string)
  {
    predicate Fits() {
      && (cbName.Some? ==> BindingName(cbName.value)) && (authzid.Some? ==> Value(authzid.value))
      && (extension.Some? ==> Extension(extension.value)) && Value(username) && Value(nonce)
      && Tail(tail) && End(end)
    }

    function Flag(): string {
      if cbName.Some? then "p=" + cbName.value else if yes then "y" else "n"
    }

    function AuthzidText(): string {
      if authzid.Some? then "a=" + authzid.value else ""
    }

    function Header(): string {
      Flag() + ("," + (AuthzidText() + ","))
    }

    function Names(): string {
      "n=" + username + (",r=" + nonce + (tail + end))
    }

    function Bare(): string {
      ExtensionText(extension) + ("n=" + username + (",r=" + nonce + tail))
    }

    function Text(): string {
      Header() + (ExtensionText(extension) + Names())
    }

    function Fields(): ClientFirst {
      ClientFirst(Header(), cbName, authzid, Bare(), extension.Some?, username, nonce)
    }
  }

  lemma FlagFits(p: ClientFirstParts, rest: string)
    requires p.Fits() && rest != "" && rest[0] == ','
    ensures MatchFlag(p.Flag() + rest) == Some((p.cbName, rest))
  {
    if p.cbName.Some? {
      ClassesAre(p.cbName.value);
      NameFits(p.cbName.value, rest);
    } else {
      var s := p.Flag() + rest;
      assert s[1..] == rest && s[0] in "yn";
    }
  }

  lemma {:induction false} NameFits(name: string, rest: string)
    requires name != "" && All(name, IsBindingNameChar) && rest != "" && rest[0] == ','
    ensures MatchFlag("p=" + name + rest) == Some((Some(name), rest))
  {
    FieldsFit("p=", name, rest, IsBindingNameChar);
    assert ("p=" + name + rest)[0] == 'p';
  }

  lemma AuthzidFits(p: ClientFirstParts, rest: string)
    requires p.Fits() && rest != "" && rest[0] == ','
    ensures MatchAuthzid(p.AuthzidText() + rest) == Some((p.authzid, rest))
  {
    var s := p.AuthzidText() + rest;
    if p.authzid.Some? {
      ClassesAre(p.authzid.value);
      FieldOf("a=", p.authzid.value, rest, IsValueChar);
    } else {
      assert s == rest;
    }
  }

  lemma Gs2Fits(p: ClientFirstParts, bare: string)
    requires p.Fits()
    ensures MatchGs2(p.Header() + bare) == Some((p.cbName, p.authzid, bare))
  {
    var rest2 := "," + bare;
    var rest1 := p.AuthzidText() + rest2;
    var rest := "," + rest1;
    FourAndOne(p.Flag(), ",", p.AuthzidText(), ",", bare);
    FlagFits(p, rest);
    SkipOf(",", rest1);
    AuthzidFits(p, rest2);
    SkipOf(",", bare);
  }

  lemma NamesFit(p: ClientFirstParts)
    requires p.Fits()
    ensures MatchBare(p.Names()) == Some((p.username, p.nonce))
  {
    var rest1 := p.tail + p.end;
    var rest := ",r=" + p.nonce + rest1;
    ClassesAre(p.username);
    ClassesAre(p.nonce);
    FieldOf("n=", p.username, rest, IsValueChar);
    FieldOf(",r=", p.nonce, rest1, IsValueChar);
    EndingFits(p.tail, p.end);
  }

  /** The bare message is without the final line feed. */
  lemma BareEnds(p: ClientFirstParts)
    requires p.Fits()
    ensures ToEnd(ExtensionText(p.extension) + p.Names()) == p.Bare()
  {
    var s := ExtensionText(p.extension) + p.Names();
    assert s == p.Bare() + p.end;
    if p.end == "" {
      var last := p.Bare()[|p.Bare()| - 1];
      if p.tail != "" {
        assert last == p.tail[|p.tail| - 1] && last in p.tail;
      } else {
        assert last == p.nonce[|p.nonce| - 1] && last in p.nonce;
      }
    }
  }

  lemma {:induction false} ClientFirstChain(s: string, header: string, cbName: Option<string>, authzid: Option<string>,
                                            bare: string, extension: bool, rest: string, username: string,
                                            nonce: string)
    requires s == header + bare && MatchGs2(s) == Some((cbName, authzid, bare))
    requires MandatoryExtension(bare, 'n') == Some((extension, rest)) && MatchBare(rest) == Some((username, nonce))
    ensures MatchClientFirst(s) == Some(ClientFirst(header, cbName, authzid, ToEnd(bare), extension, username, nonce))
  {
    assert s[..|s| - |bare|] == header;
  }

  lemma ClientFirstFits(p: ClientFirstParts)
    requires p.Fits()
    ensures MatchClientFirst(p.Text()) == Some(p.Fields())
  {
    var bare := ExtensionText(p.extension) + p.Names();
    Gs2Fits(p, bare);
    NamesStart(p);
    ExtensionFits(p.extension, 'n', p.Names());
    NamesFit(p);
    BareEnds(p);
    ClientFirstChain(p.Text(), p.Header(), p.cbName, p.authzid, bare, p.extension.Some?, p.Names(), p.username,
                     p.nonce);
  }

  lemma NamesStart(p: ClientFirstParts)
    ensures |p.Names()| > 1 && p.Names()[0] == 'n' && p.Names()[1] == '='
  {
  }

  lemma FlagFound(s: string) returns (yes: bool)
    requires MatchFlag(s).Some?
    ensures var (cbName, rest) := MatchFlag(s).value;
      && s == (if cbName.Some? then "p=" + cbName.value else if yes then "y" else "n") + rest
      && (cbName.Some? ==> BindingName(cbName.value))
  {
    yes := s != "" && s[0] == 'y';
    var (cbName, rest) := MatchFlag(s).value;
    if cbName.Some? {
      var name, after := FieldFound(s, "p=", IsBindingNameChar);
      ClassesAre(name);
    } else {
      assert s == [s[0]] + rest;
    }
  }

  lemma AuthzidFound(s: string)
    requires MatchAuthzid(s).Some?
    ensures var (authzid, rest) := MatchAuthzid(s).value;
      && s == (if authzid.Some? then "a=" + authzid.value else "") + rest
      && (authzid.Some? ==> Value(authzid.value))
  {
    var (authzid, rest) := MatchAuthzid(s).value;
    if authzid.Some? {
      var name, after := FieldFound(s, "a=", IsValueChar);
      ClassesAre(name);
    } else {
      assert "" + rest == rest;
    }
  }

  /** Flag, authzid and the commas behind them. */
  lemma Gs2Found(s: string) returns (yes: bool)
    requires MatchGs2(s).Some?
    ensures var (cbName, authzid, bare) := MatchGs2(s).value;
      var p := ClientFirstParts(cbName, yes, authzid, None, "", "", "", "");
      && s == p.Header() + bare
      && (cbName.Some? ==> BindingName(cbName.value)) && (authzid.Some? ==> Value(authzid.value))
  {
    yes := FlagFound(s);
    var (cbName, rest) := MatchFlag(s).value;
    var rest1 := Skip(rest, ",").value;
    AuthzidFound(rest1);
    var (authzid, rest2) := MatchAuthzid(rest1).value;
    var bare := Skip(rest2, ",").value;
    var p := ClientFirstParts(cbName, yes, authzid, None, "", "", "", "");
    assert rest == "," + rest1 && rest1 == p.AuthzidText() + rest2 && rest2 == "," + bare;
    FourAndOne(p.Flag(), ",", p.AuthzidText(), ",", bare);
  }

  lemma ClientFirstFound(s: string) returns (p: ClientFirstParts)
    requires MatchClientFirst(s).Some?
    ensures p.Fits() && s == p.Text() && MatchClientFirst(s) == Some(p.Fields())
  {
    var yes := Gs2Found(s);
    var (cbName, authzid, bare) := MatchGs2(s).value;
    var extension := ExtensionFound(bare, 'n');
    var rest := MandatoryExtension(bare, 'n').value.1;
    var username, rest1 := FieldFound(rest, "n=", IsValueChar);
    var nonce, rest2 := FieldFound(rest1, ",r=", IsValueChar);
    var tail, end := EndingSplits(rest2);
    ClassesAre(username);
    ClassesAre(nonce);
    p := ClientFirstParts(cbName, yes, authzid, extension, username, nonce, tail, end);
    assert s == p.Header() + bare;
    ClientFirstFits(p);
  }

  // ---- The client's final message

  datatype ClientFinalParts = ClientFinalParts(cb: string, nonce: string, tail: string, proof: string, end: string)
  {
    predicate Fits() {
      Base64(cb) && Value(nonce) && Tail(tail) && Base64(proof) && End(end)
    }

    function WithoutProof(): string {
      "c=" + cb + ",r=" + nonce + tail
    }

    function Text(): string {
      WithoutProof() + (",p=" + proof + end)
    }
  }

  lemma NoCommaBehind(proof: string, end: string)
    requires Base64(proof) && End(end)
    ensures ',' !in "p=" + proof + end
  {
    ClassesAre(proof);
    assert forall i :: 0 <= i < |proof| ==> proof[i] != ',';
  }

  lemma LastComma(tail: string, proof: string, end: string)
    requires Tail(tail) && Base64(proof) && End(end)
    ensures MatchProof(tail + (",p=" + proof + end)) == Some((tail, proof))
  {
    var last := ",p=" + proof + end;
    var s := tail + last;
    ClassesAre(proof);
    FieldsFit(",p=", proof, end, IsBase64Char);
    LastCommaAt(tail, proof, end);
    assert s[..|tail|] == tail && s[|tail|..] == last;
    assert s[0] == if tail == "" then last[0] else tail[0];
    ProofAt(s, tail, last, proof, end);
  }

  lemma {:induction false} LastCommaAt(tail: string, proof: string, end: string)
    requires Base64(proof) && End(end)
    ensures FindLast(tail + (",p=" + proof + end), ',') == |tail|
  {
    var after := "p=" + proof + end;
    assert ",p=" + proof + end == [','] + after;
    NoCommaBehind(proof, end);
    FindLastIn(tail, ',', after);
    TwoAndOne(tail, [','], after);
  }

  lemma {:induction false} ProofAt(s: string, tail: string, last: string, proof: string, end: string)
    requires |tail| < |s| && s[0] == ',' && FindLast(s, ',') == |tail|
    requires s[..|tail|] == tail && s[|tail|..] == last && '\n' !in tail
    requires Field(last, ",p=", IsBase64Char) == Some((proof, end)) && AtEnd(end)
    ensures MatchProof(s) == Some((tail, proof))
  {
  }

  lemma {:induction false} ClientFinalChain(s: string, cb: string, rest: string, nonce: string, rest1: string,
                                            tail: string, proof: string)
    requires Field(s, "c=", IsBase64Char) == Some((cb, rest))
    requires Field(rest, ",r=", IsValueChar) == Some((nonce, rest1)) && MatchProof(rest1) == Some((tail, proof))
    ensures MatchClientFinal(s) == Some(ClientFinal("c=" + cb + ",r=" + nonce + tail, cb, nonce, proof))
  {
  }

  lemma ClientFinalFits(p: ClientFinalParts)
    requires p.Fits()
    ensures MatchClientFinal(p.Text()) == Some(ClientFinal(p.WithoutProof(), p.cb, p.nonce, p.proof))
  {
    var last := ",p=" + p.proof + p.end;
    var rest1 := p.tail + last;
    var rest := ",r=" + p.nonce + rest1;
    FiveAndOne("c=", p.cb, ",r=", p.nonce, p.tail, last);
    ClassesAre(p.cb);
    ClassesAre(p.nonce);
    FieldsFit("c=", p.cb, rest, IsBase64Char);
    assert rest1[0] == ',';
    FieldsFit(",r=", p.nonce, rest1, IsValueChar);
    LastComma(p.tail, p.proof, p.end);
    ClientFinalChain(p.Text(), p.cb, rest, p.nonce, rest1, p.tail, p.proof);
  }

  lemma ProofFound(s: string) returns (tail: string, proof: string, end: string)
    requires MatchProof(s).Some?
    ensures MatchProof(s) == Some((tail, proof))
    ensures s == tail + (",p=" + proof + end) && Tail(tail) && Base64(proof) && End(end)
  {
    var i := FindLast(s, ',');
    var value, rest := FieldFound(s[i..], ",p=", IsBase64Char);
    tail, proof, end := s[..i], value, rest;
    ClassesAre(proof);
    assert s == s[..i] + s[i..];
    assert tail != "" ==> tail[0] == s[0];
  }

  lemma ClientFinalFound(s: string) returns (p: ClientFinalParts)
    requires MatchClientFinal(s).Some?
    ensures p.Fits() && s == p.Text()
    ensures MatchClientFinal(s) == Some(ClientFinal(p.WithoutProof(), p.cb, p.nonce, p.proof))
  {
    var cb, rest := FieldFound(s, "c=", IsBase64Char);
    var nonce, rest1 := FieldFound(rest, ",r=", IsValueChar);
    var tail, proof, end := ProofFound(rest1);
    ClassesAre(cb);
    ClassesAre(nonce);
    p := ClientFinalParts(cb, nonce, tail, proof, end);
    FiveAndOne("c=", cb, ",r=", nonce, tail, ",p=" + proof + end);
    ClientFinalChain(s, cb, rest, nonce, rest1, tail, proof);
  }

  // ---- The server's final message

  /** An error, which has no comma, or a verifier with what may follow it. */
  lemma ServerFinalExact(s: string)
    ensures forall error :: error != "" && ',' !in error && s == "e=" + error ==>
      MatchServerFinal(s) == Some(Error(error))
    ensures forall v, tail, end :: Base64(v) && Tail(tail) && End(end) && s == "v=" + v + (tail + end) ==>
      MatchServerFinal(s) == Some(Verifier(v))
  {
    forall v, tail, end | Base64(v) && Tail(tail) && End(end) && s == "v=" + v + (tail + end)
      ensures MatchServerFinal(s) == Some(Verifier(v))
    {
      ClassesAre(v);
      EndingFits(tail, end);
      FieldOf("v=", v, tail + end, IsBase64Char);
      assert s[0] == 'v';
    }
  }

  lemma ServerFinalFound(s: string) returns (value: string, tail: string, end: string)
    requires MatchServerFinal(s).Some?
    ensures match MatchServerFinal(s).value
      case Error(error) => value == error && s == "e=" + value && value != "" && ',' !in value
      case Verifier(v) => value == v && s == "v=" + value + (tail + end) && Base64(value) && Tail(tail) && End(end)
  {
    match MatchServerFinal(s).value
    case Error(error) => value, tail, end := error, "", "";
    case Verifier(v) =>
      var rest;
      value, rest := FieldFound(s, "v=", IsBase64Char);
      tail, end := EndingSplits(rest);
      ClassesAre(value);
  }
}
