/** SCRAM messages: name escaping and the message regular expressions, written as the deterministic
    parsers they amount to (pyxmpp2/sasl/scram.py). In each pattern a class is followed by a character
    outside of it, so no other split than the greedy one can match. */
module ScramMessages {
  import opened Text
  import opened Bytes

  // ---- Escaping

  function Escape(data: string): string {
    Replace(Replace(data, "=", "=3D"), ",", "=2C")
  }

  function Unescape(data: string): string {
    Replace(Replace(data, "=2C", ","), "=3D", "=")
  }

  // ---- Character classes

  /** [\x21-\x2B\x2D-\x7E]; with the alternatives =2C and =3D of a quoted value it is no larger. */
  predicate IsValueChar(c: char) {
    '!' <= c <= '~' && c != ','
  }

  predicate IsBase64Char(c: char) {
    'a' <= c <= 'z' || 'A' <= c <= 'Z' || '0' <= c <= '9' || c in "/+="
  }

  /** [a-zA-z0-9.-]: the second range also takes the punctuation between 'Z' and 'a'. */
  predicate IsBindingNameChar(c: char) {
    'a' <= c <= 'z' || 'A' <= c <= 'z' || '0' <= c <= '9' || c == '.' || c == '-'
  }

  predicate IsExtensionChar(c: char) {
    c != '\0' && c != '='
  }

  /** VALUE_CHARS_RE; `$` also matches before a final line feed. */
  predicate MatchesValueChars(s: string) {
    var n := Span(s, IsValueChar);
    n > 0 && AtEnd(s[n..])
  }

  /** `$` */
  predicate AtEnd(rest: string) {
    rest == "" || rest == "\n"
  }

  /** `(?:,.*)?$`: the dot takes no line feed. */
  predicate ExtensionsToEnd(rest: string) {
    AtEnd(rest) || (rest[0] == ',' && Find(rest, '\n') >= |rest| - 1)
  }

  /** `$` leaves a final line feed out of the groups before it. */
  function ToEnd(s: string): string {
    if s != "" && s[|s| - 1] == '\n' then s[..|s| - 1] else s
  }

  /** A name, "=" and a run of class characters, at least one. */
  function Field(s: string, name: string, p: char -> bool): (r: Option<(string, string)>)
    ensures r.Some? ==> s == name + r.value.0 + r.value.1 && r.value.0 != "" && All(r.value.0, p)
  {
    match Skip(s, name)
    case None => None
    case Some(rest) =>
      var n := Span(rest, p);
      if n == 0 then None else Some((rest[..n], rest[n..]))
  }

  lemma FieldOf(name: string, value: string, rest: string, p: char -> bool)
    requires value != "" && All(value, p) && (rest == "" || !p(rest[0]))
    ensures Field(name + value + rest, name, p) == Some((value, rest))
  {
    assert name + value + rest == name + (value + rest);
    SkipOf(name, value + rest);
    SpanOf(value, rest, p);
  }

  /** `(?P<mext>m=[^\000=]+,)?` before a field whose name is `next` and "=": the first "=" after "m="
      must end that name. Gives what follows, and whether there was an extension. */
  function MandatoryExtension(s: string, next: char): Option<(bool, string)> {
    match Skip(s, "m=")
    case None => Some((false, s))
    case Some(rest) =>
      var n := Span(rest, IsExtensionChar);
      if n >= 3 && n < |rest| && rest[n] == '=' && rest[n - 1] == next && rest[n - 2] == ','
      then Some((true, rest[n - 1..]))
      else None
  }

  // ---- Messages

  /** CLIENT_FIRST_MESSAGE_RE */
  datatype ClientFirst = ClientFirst(gs2Header: string, cbName: Option<string>, authzid: Option<string>,
                                     bare: string, extension: bool, username: string, nonce: string)

  /** The channel binding flag: its name and what follows. */
  function MatchFlag(s: string): (r: Option<(Option<string>, string)>)
    ensures r.Some? ==> |r.value.1| < |s|
  {
    if s != "" && s[0] in "yn" then Some((None, s[1..])) else
      match Field(s, "p=", IsBindingNameChar)
      case None => None
      case Some((name, rest)) => Some((Some(name), rest))
  }

  function MatchAuthzid(s: string): (r: Option<(Option<string>, string)>)
    ensures r.Some? ==> |r.value.1| <= |s|
  {
    if "a=" <= s then
      match Field(s, "a=", IsValueChar)
      case None => None
      case Some((authzid, rest)) => Some((Some(authzid), rest))
    else Some((None, s))
  }

  /** The GS2 header: binding name, authzid and what follows. */
  function MatchGs2(s: string): (r: Option<(Option<string>, Option<string>, string)>)
    ensures r.Some? ==> |r.value.2| < |s|
  {
    match MatchFlag(s)
    case None => None
    case Some((cbName, rest)) =>
      match Skip(rest, ",")
      case None => None
      case Some(rest1) =>
        match MatchAuthzid(rest1)
        case None => None
        case Some((authzid, rest2)) =>
          match Skip(rest2, ",")
          case None => None
          case Some(rest3) => Some((cbName, authzid, rest3))
  }

  /** The bare message after its extension: username and nonce. */
  function MatchBare(s: string): Option<(string, string)> {
    match Field(s, "n=", IsValueChar)
    case None => None
    case Some((username, rest)) =>
      match Field(rest, ",r=", IsValueChar)
      case None => None
      case Some((nonce, rest1)) =>
        if ExtensionsToEnd(rest1) then Some((username, nonce)) else None
  }

  function MatchClientFirst(s: string): Option<ClientFirst> {
    match MatchGs2(s)
    case None => None
    case Some((cbName, authzid, bare)) =>
      match MandatoryExtension(bare, 'n')
      case None => None
      case Some((extension, rest)) =>
        match MatchBare(rest)
        case None => None
        case Some((username, nonce)) =>
          Some(ClientFirst(s[..|s| - |bare|], cbName, authzid, ToEnd(bare), extension, username, nonce))
  }

  /** SERVER_FIRST_MESSAGE_RE */
  datatype ServerFirst = ServerFirst(extension: bool, nonce: string, salt: string, iterations: string)
  {
    /** int() of the digits. */
    function Count(): nat {
      if forall c <- iterations :: IsDigit(c) then Number(iterations) else 0
    }
  }

  function MatchServerFirst(s: string): Option<ServerFirst> {
    match MandatoryExtension(s, 'r')
    case None => None
    case Some((extension, rest)) =>
      match Field(rest, "r=", IsValueChar)
      case None => None
      case Some((nonce, rest1)) =>
        match Field(rest1, ",s=", IsBase64Char)
        case None => None
        case Some((salt, rest2)) =>
          match Field(rest2, ",i=", IsDigit)
          case None => None
          case Some((iterations, rest3)) =>
            if ExtensionsToEnd(rest3) then Some(ServerFirst(extension, nonce, salt, iterations)) else None
  }

  /** CLIENT_FINAL_MESSAGE_RE */
  datatype ClientFinal = ClientFinal(withoutProof: string, cb: string, nonce: string, proof: string)

  /** Position of the last `c`, or |s|. */
  function FindLast(s: string, c: char): (i: nat)
    ensures i <= |s| && (i < |s| ==> s[i] == c && c !in s[i + 1..])
  {
    if s == "" then 0
    else if s[|s| - 1] == c then |s| - 1
    else
      var i := FindLast(s[..|s| - 1], c);
      if i == |s| - 1 then |s| else
        assert s[i + 1..] == s[..|s| - 1][i + 1..] + [s[|s| - 1]];
        i
  }

  lemma {:induction false} FindLastIn(a: string, c: char, b: string)
    requires c !in b
    ensures FindLast(a + [c] + b, c) == |a|
  {
    var s := a + [c] + b;
    if b != "" {
      var b1 := b[..|b| - 1];
      assert s[..|s| - 1] == a + [c] + b1;
      assert s[|s| - 1] == b[|b| - 1];
      FindLastIn(a, c, b1);
    }
  }

  /** Extensions and proof at the end of the message. The proof has no comma in it, so ",p=" stands at
      the last comma; the extensions before it have no line feed. */
  function MatchProof(s: string): Option<(string, string)> {
    var i := FindLast(s, ',');
    if i == |s| || s[0] != ',' || '\n' in s[..i] then None else
      match Field(s[i..], ",p=", IsBase64Char)
      case None => None
      case Some((proof, rest)) => if AtEnd(rest) then Some((s[..i], proof)) else None
  }

  function BeforeProof(cb: string, nonce: string, extensions: string): string {
    "c=" + cb + ",r=" + nonce + extensions
  }

  function MatchClientFinal(s: string): Option<ClientFinal> {
    match Field(s, "c=", IsBase64Char)
    case None => None
    case Some((cb, rest)) =>
      match Field(rest, ",r=", IsValueChar)
      case None => None
      case Some((nonce, rest1)) =>
        match MatchProof(rest1)
        case None => None
        case Some((extensions, proof)) =>
          Some(ClientFinal(BeforeProof(cb, nonce, extensions), cb, nonce, proof))
  }

  /** SERVER_FINAL_MESSAGE_RE */
  datatype ServerFinal = Error(error: string) | Verifier(verifier: string)

  function MatchServerFinal(s: string): Option<ServerFinal> {
    match Skip(s, "e=")
    case Some(error) => if error != "" && ',' !in error then Some(Error(error)) else None
    case None =>
      match Field(s, "v=", IsBase64Char)
      case None => None
      case Some((verifier, rest)) => if ExtensionsToEnd(rest) then Some(Verifier(verifier)) else None
  }

  // ---- Escaping is undone, and yields only harmless characters

  /** Name characters a message can carry: printable ASCII without the space. */
  predicate IsNameChar(c: char) {
    '!' <= c <= '~'
  }

  predicate IsName(s: string) {
    s != "" && All(s, IsNameChar)
  }

  function EscapedChar(c: char): string {
    if c == '=' then "=3D" else if c == ',' then "=2C" else [c]
  }

  function EqualsEscaped(data: string): string {
    Replace(data, "=", "=3D")
  }

  lemma ReplaceHead(c: char, rest: string, what: char, into: string)
    ensures Replace([c] + rest, [what], into) == (if c == what then into else [c]) + Replace(rest, [what], into)
  {
    var s := [c] + rest;
    assert s[1..] == rest;
    assert [what] <= s <==> s[0] == what;
  }

  lemma EscapeHead(c: char, rest: string)
    ensures Escape([c] + rest) == EscapedChar(c) + Escape(rest)
  {
    ReplaceHead(c, rest, '=', "=3D");
    var r := EqualsEscaped(rest);
    if c == '=' {
      assert "=3D" + r == ['='] + (['3'] + (['D'] + r));
      ReplaceHead('D', r, ',', "=2C");
      ReplaceHead('3', ['D'] + r, ',', "=2C");
      ReplaceHead('=', ['3'] + (['D'] + r), ',', "=2C");
    } else {
      ReplaceHead(c, r, ',', "=2C");
    }
  }

  /** First pass of unescape: only commas come back. */
  lemma {:induction false} FirstPass(s: string)
    ensures Replace(Escape(s), "=2C", ",") == EqualsEscaped(s)
  {
    if s != "" {
      var c, t := s[0], s[1..];
      assert s == [c] + t;
      EscapeHead(c, t);
      ReplaceHead(c, t, '=', "=3D");
      FirstPass(t);
      var r := Escape(t);
      if c == '=' {
        ReplaceSkips("=3D", r, "=2C", ",");
      } else if c == ',' {
        assert ("=2C" + r)[3..] == r;
      } else {
        assert ([c] + r)[1..] == r && !("=2C" <= [c] + r);
      }
    }
  }

  /** "=3D" is passed over by a search for "=2C". */
  lemma ReplaceSkips(lit: string, r: string, what: string, into: string)
    requires lit == "=3D" && what == "=2C"
    ensures Replace(lit + r, what, into) == lit + Replace(r, what, into)
  {
    var s := lit + r;
    var s2, s1 := ['D'] + r, ['3'] + (['D'] + r);
    assert s == ['='] + s1 && s[1..] == s1 && s1[1..] == s2 && s2[1..] == r;
    assert s[1] != what[1] && !(what <= s);
    assert s1[0] != what[0] && s2[0] != what[0];
    assert Replace(s2, what, into) == ['D'] + Replace(r, what, into);
    assert Replace(s1, what, into) == ['3'] + Replace(s2, what, into);
    assert lit + Replace(r, what, into) == ['='] + (['3'] + (['D'] + Replace(r, what, into)));
  }

  lemma {:induction false} SecondPass(s: string)
    ensures Replace(EqualsEscaped(s), "=3D", "=") == s
  {
    if s != "" {
      var c, t := s[0], s[1..];
      assert s == [c] + t;
      ReplaceHead(c, t, '=', "=3D");
      SecondPass(t);
      var r := EqualsEscaped(t);
      if c == '=' {
        assert ("=3D" + r)[3..] == r;
      } else {
        assert ([c] + r)[1..] == r && !("=3D" <= [c] + r);
      }
    }
  }

  /** For every byte string. */
  lemma UnescapeEscape(s: string)
    ensures Unescape(Escape(s)) == s
  {
    FirstPass(s);
    SecondPass(s);
  }

  lemma SliceOfTail(h: string, r: string, i: nat)
    requires |h| <= i && i + 3 <= |h + r|
    ensures (h + r)[i..i + 3] == r[i - |h|..i - |h| + 3]
  {
    var x, y := (h + r)[i..i + 3], r[i - |h|..i - |h| + 3];
    assert x[0] == y[0] && x[1] == y[1] && x[2] == y[2];
  }

  /** No comma survives, and "=" only begins "=2C" or "=3D". */
  lemma {:induction false} EscapedShape(s: string)
    ensures ',' !in Escape(s)
    ensures forall i :: 0 <= i < |Escape(s)| && Escape(s)[i] == '=' ==>
      i + 2 < |Escape(s)| && Escape(s)[i..i + 3] in {"=2C", "=3D"}
  {
    if s != "" {
      var c, t := s[0], s[1..];
      assert s == [c] + t;
      EscapeHead(c, t);
      EscapedShape(t);
      var h, r := EscapedChar(c), Escape(t);
      forall i | 0 <= i < |h + r| && (h + r)[i] == '='
        ensures i + 2 < |h + r| && (h + r)[i..i + 3] in {"=2C", "=3D"}
      {
        if i < |h| {
          assert i == 0 && (h + r)[0..3] == h;
        } else {
          assert r[i - |h|] == '=';
          SliceOfTail(h, r, i);
        }
      }
    }
  }

  /** An escaped name fits a quoted value exactly when the name is printable. */
  lemma {:induction false} EscapedIsValue(s: string)
    ensures All(Escape(s), IsValueChar) <==> All(s, IsNameChar)
    ensures Escape(s) == "" <==> s == ""
  {
    if s != "" {
      var c, t := s[0], s[1..];
      assert s == [c] + t;
      EscapeHead(c, t);
      EscapedIsValue(t);
      AllConcat(EscapedChar(c), Escape(t), IsValueChar);
      AllConcat([c], t, IsNameChar);
      assert All(EscapedChar(c), IsValueChar) <==> IsNameChar(c);
    }
  }

  lemma AllConcat(a: string, b: string, p: char -> bool)
    ensures All(a + b, p) <==> All(a, p) && All(b, p)
  {
    if All(a + b, p) {
      assert forall i :: 0 <= i < |a| ==> a[i] == (a + b)[i];
      assert forall i :: 0 <= i < |b| ==> b[i] == (a + b)[|a| + i];
    }
  }
}
