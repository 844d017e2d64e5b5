/** DIGEST-MD5 quoting and parameter lists (pyxmpp2/sasl/digest_md5.py). */
module DigestMd5 {
  import opened Text
  import opened Bytes
  import opened ScramMessages

  // ---- Quoting

  /** _quote */
  function Quote(data: string): string {
    Replace(Replace(data, "\\", "\\\\"), "\"", "\\\"")
  }

  /** QUOTE_RE.sub: a backslash not preceded by one is dropped before any character but a line feed.
      `after` tells whether the character before `s` is a backslash. */
  function DropBackslashes(s: string, after: bool): string {
    if s == "" then ""
    else if s[0] == '\\' && !after && |s| > 1 && s[1] != '\n' then
      [s[1]] + DropBackslashes(s[2..], s[1] == '\\')
    else [s[0]] + DropBackslashes(s[1..], s[0] == '\\')
  }

  /** _unquote */
  function Unquote(data: string): string {
    if data == "" || data[0] != '"' || data[|data| - 1] != '"' then data
    else if |data| == 1 then ""
    else DropBackslashes(data[1..|data| - 1], false)
  }

  function QuotedChar(c: char): string {
    if c == '\\' || c == '"' then ['\\', c] else [c]
  }

  lemma {:induction false} QuoteHead(c: char, rest: string)
    ensures Quote([c] + rest) == QuotedChar(c) + Quote(rest)
  {
    ReplaceHead(c, rest, '\\', "\\\\");
    var r := Replace(rest, "\\", "\\\\");
    if c == '\\' {
      assert "\\\\" + r == ['\\'] + (['\\'] + r);
      ReplaceHead('\\', r, '"', "\\\"");
      ReplaceHead('\\', ['\\'] + r, '"', "\\\"");
    } else {
      ReplaceHead(c, r, '"', "\\\"");
    }
  }

  /** No backslash stands directly before a backslash or a quote; `after` as above. */
  predicate Unambiguous(s: string, after: bool) {
    s == "" || (!(after && (s[0] == '\\' || s[0] == '"')) && Unambiguous(s[1..], s[0] == '\\'))
  }

  /** Unquoting what was quoted never loses a character, gains one wherever a backslash stands before a
      backslash or a quote, and otherwise gives the string back. */
  lemma {:induction false} DropQuoted(s: string, after: bool)
    ensures |DropBackslashes(Quote(s), after)| >= |s|
    ensures |DropBackslashes(Quote(s), after)| == |s| <==> Unambiguous(s, after)
    ensures Unambiguous(s, after) ==> DropBackslashes(Quote(s), after) == s
  {
    if s != "" {
      var c, t := s[0], s[1..];
      assert s == [c] + t;
      QuoteHead(c, t);
      DropQuoted(t, c == '\\');
      DropQuoted(t, false);
      var q := Quote(t);
      assert ([c] + q)[1..] == q;
      if c == '\\' || c == '"' {
        var two := ['\\', c] + q;
        assert Quote(s) == two && two[1] == c && two[2..] == q && two[1..] == [c] + q;
        if after {
          DropTwo(c, q);
        }
      }
    }
  }

  lemma DropTwo(c: char, q: string)
    requires c == '\\' || c == '"'
    ensures DropBackslashes(['\\', c] + q, true) == ['\\', c] + DropBackslashes(q, c == '\\')
  {
    var two, one := ['\\', c] + q, [c] + q;
    assert two[1..] == one && one[1..] == q;
    assert DropBackslashes(one, true) == [c] + DropBackslashes(q, c == '\\');
  }

  /** _unquote undoes quoting by _quote exactly for strings where no backslash is directly followed by
      a backslash or a quote. */
  lemma UnquoteQuote(s: string)
    ensures Unquote("\"" + Quote(s) + "\"") == s <==> Unambiguous(s, false)
  {
    var data := "\"" + Quote(s) + "\"";
    assert data[1..|data| - 1] == Quote(s);
    DropQuoted(s, false);
  }

  /** What is not between quotes is left as it is. */
  lemma UnquoteOther(data: string)
    ensures !("\"" <= data && data[|data| - 1] == '"') ==> Unquote(data) == data
    ensures Unquote("\"\"") == "" && Unquote("\"") == ""
  {
  }

  // ---- Parameter lists

  datatype Param = Param(name: string, value: string)

  predicate IsPlainValueChar(c: char) {
    c != '"' && c != ','
  }

  predicate IsSpace(c: char) {
    c in " \t\n\r" || c as int == 11 || c as int == 12
  }

  /** Length of quoted contents up to the closing quote: plain characters, \" and \\. */
  function QuotedLength(s: string): Option<nat> {
    if s == "" then None
    else if s[0] == '"' then Some(0)
    else if s[0] != '\\' then
      match QuotedLength(s[1..]) case None => None case Some(n) => Some(n + 1)
    else if |s| > 1 && (s[1] == '"' || s[1] == '\\') then
      match QuotedLength(s[2..]) case None => None case Some(n) => Some(n + 2)
    else None
  }

  lemma {:induction false} QuotedLengthBound(s: string)
    ensures QuotedLength(s).Some? ==> QuotedLength(s).value < |s|
  {
    if s != "" && s[0] != '"' {
      QuotedLengthBound(s[1..]);
      if |s| > 1 { QuotedLengthBound(s[2..]); }
    }
  }

  /** Length of the value at the start of `s`: quoted and not empty, or a run without quote and comma. */
  function ValueLength(s: string): (r: Option<nat>)
    ensures r.Some? ==> 0 < r.value <= |s|
  {
    if s != "" && s[0] == '"' then
      QuotedLengthBound(s[1..]);
      match QuotedLength(s[1..])
      case Some(n) => if n > 0 then Some(n + 2) else None
      case None => None
    else
      var n := Span(s, IsPlainValueChar);
      if n > 0 then Some(n) else None
  }

  /** `(\s*\,\s*(?P<rest>.*))?$`: None if it does not match, Some(None) at the end, else the rest. */
  function MatchRest(s: string): (r: Option<Option<string>>)
    ensures r.Some? && r.value.Some? ==> |r.value.value| < |s|
  {
    var n := Span(s, IsSpace);
    if n < |s| && s[n] == ',' then
      var rest := s[n + 1..][Span(s[n + 1..], IsSpace)..];
      if Find(rest, '\n') >= |rest| - 1 then Some(Some(ToEnd(rest))) else None
    else if AtEnd(s) then Some(None)
    else None
  }

  /** PARAM_RE */
  function MatchParam(s: string): (r: Option<(Param, Option<string>)>)
    ensures r.Some? && r.value.1.Some? ==> |r.value.1.value| < |s|
  {
    var i := Find(s, '=');
    if i == 0 || i == |s| then None else
      match ValueLength(s[i + 1..])
      case None => None
      case Some(n) =>
        match MatchRest(s[i + 1..][n..])
        case None => None
        case Some(rest) => Some((Param(s[..i], s[i + 1..][..n]), rest))
  }

  /** The parameter loop of challenge and _parse_response: raw names and values, None for a syntax
      error. */
  function Params(s: string): Option<seq<Param>>
    decreases |s|
  {
    if s == "" then Some([]) else
      match MatchParam(s)
      case None => None
      case Some((param, rest)) =>
        match Params(if rest.Some? then rest.value else "")
        case None => None
        case Some(more) => Some([param] + more)
  }

  function Prepend(found: seq<Param>, more: Option<seq<Param>>): Option<seq<Param>> {
    if more.None? then None else Some(found + more.value)
  }

  lemma PrependStep(found: seq<Param>, param: Param, more: Option<seq<Param>>)
    ensures Prepend(found, Prepend([param], more)) == Prepend(found + [param], more)
  {
    if more.Some? {
      assert found + ([param] + more.value) == (found + [param]) + more.value;
    }
  }

  lemma PrependNothing(found: seq<Param>, more: Option<seq<Param>>)
    ensures Prepend([], more) == more && Prepend(found, Some([])) == Some(found)
  {
    assert found + [] == found;
    assert more.Some? ==> [] + more.value == more.value;
  }

  lemma ParamsNext(s: string)
    requires s != ""
    ensures var m := MatchParam(s);
      Params(s) == if m.None? then None
                   else Prepend([m.value.0], Params(if m.value.1.Some? then m.value.1.value else ""))
  {
  }

  method ParseParams(s: string) returns (r: Option<seq<Param>>)
    ensures r == Params(s)
  {
    var left := s;
    var found: seq<Param> := [];
    PrependNothing(found, Params(left));
    while left != ""
      invariant Params(s) == Prepend(found, Params(left))
      decreases |left|
    {
      ParamsNext(left);
      var matched := MatchParam(left);
      if matched.None? {
        return None;
      }
      var (param, rest) := matched.value;
      left := if rest.Some? then rest.value else "";
      PrependStep(found, param, Params(left));
      found := found + [param];
    }
    PrependNothing(found, Some([]));
    r := Some(found);
  }

  // ---- Lists are recovered

  predicate WellQuoted(s: string) {
    || s == ""
    || (s[0] != '"' && s[0] != '\\' && WellQuoted(s[1..]))
    || (s[0] == '\\' && |s| > 1 && (s[1] == '"' || s[1] == '\\') && WellQuoted(s[2..]))
  }

  predicate ProperValue(v: string) {
    || (v != "" && All(v, IsPlainValueChar))
    || (|v| > 2 && v[0] == '"' && v[|v| - 1] == '"' && WellQuoted(v[1..|v| - 1]))
  }

  /** No line feed in it, a name that the pattern delimits, and a value of one of the two forms. */
  predicate ProperParam(p: Param) {
    && p.name != "" && '=' !in p.name && !IsSpace(p.name[0]) && ProperValue(p.value)
    && '\n' !in p.name && '\n' !in p.value
  }

  function Join(ps: seq<Param>): string {
    if ps == [] then ""
    else ps[0].name + "=" + ps[0].value + (if |ps| == 1 then "" else "," + Join(ps[1..]))
  }

  lemma {:induction false} QuotedLengthOf(s: string, rest: string)
    requires WellQuoted(s)
    ensures QuotedLength(s + "\"" + rest) == Some(|s|)
  {
    var all := s + "\"" + rest;
    if s == "" {
      assert all[0] == '"';
    } else if s[0] != '\\' {
      assert all[1..] == s[1..] + "\"" + rest;
      QuotedLengthOf(s[1..], rest);
    } else {
      assert all[2..] == s[2..] + "\"" + rest && all[1] == s[1];
      QuotedLengthOf(s[2..], rest);
    }
  }

  lemma ValueLengthOf(v: string, rest: string)
    requires ProperValue(v) && (rest == "" || rest[0] == ',')
    ensures ValueLength(v + rest) == Some(|v|)
  {
    if All(v, IsPlainValueChar) {
      SpanOf(v, rest, IsPlainValueChar);
      assert (v + rest)[0] == v[0] && IsPlainValueChar(v[0]);
    } else {
      var inner := v[1..|v| - 1];
      assert (v + rest)[1..] == inner + "\"" + rest;
      QuotedLengthOf(inner, rest);
    }
  }

  lemma {:induction false} JoinHasNoLineFeed(ps: seq<Param>)
    requires forall p <- ps :: ProperParam(p)
    ensures '\n' !in Join(ps) && (ps != [] ==> Join(ps) != "" && !IsSpace(Join(ps)[0]))
  {
    if ps != [] {
      assert ps[0] in ps;
      JoinHasNoLineFeed(ps[1..]);
    }
  }

  lemma RestOf(rest: string)
    requires '\n' !in rest && rest != "" && !IsSpace(rest[0])
    ensures MatchRest("," + rest) == Some(Some(rest))
  {
    var s := "," + rest;
    assert Span(s, IsSpace) == 0 && s[1..] == rest && Span(rest, IsSpace) == 0 && rest[0..] == rest;
    FindAbsent(rest, '\n');
    assert rest[|rest| - 1] in rest;
  }

  lemma ParamOf(p: Param, rest: string)
    requires ProperParam(p) && (rest == "" || rest[0] == ',')
    ensures MatchParam(p.name + "=" + p.value + rest)
      == match MatchRest(rest) case None => None case Some(r) => Some((p, r))
  {
    var s := p.name + "=" + p.value + rest;
    assert s == p.name + ['='] + (p.value + rest);
    FindSkips(p.name, '=', p.value + rest);
    var i := |p.name|;
    assert s[..i] == p.name && s[i + 1..] == p.value + rest;
    ValueLengthOf(p.value, rest);
    assert (p.value + rest)[..|p.value|] == p.value && (p.value + rest)[|p.value|..] == rest;
  }

  lemma OneParam(p: Param)
    requires ProperParam(p)
    ensures MatchParam(Join([p])) == Some((p, None))
  {
    ParamOf(p, "");
    assert Join([p]) == p.name + "=" + p.value + "";
  }

  lemma FirstParam(ps: seq<Param>)
    requires |ps| > 1 && forall p <- ps :: ProperParam(p)
    ensures MatchParam(Join(ps)) == Some((ps[0], Some(Join(ps[1..]))))
  {
    assert ps[0] in ps;
    assert forall p <- ps[1..] :: p in ps;
    JoinHasNoLineFeed(ps[1..]);
    ParamOf(ps[0], "," + Join(ps[1..]));
    RestOf(Join(ps[1..]));
    assert Join(ps) == ps[0].name + "=" + ps[0].value + ("," + Join(ps[1..]));
  }

  /** The loop recovers exactly the comma-joined list of names and raw values, even with commas and
      escaped quotes inside quoted values. */
  lemma {:induction false} ParamsOfJoin(ps: seq<Param>)
    requires forall p <- ps :: ProperParam(p)
    ensures Params(Join(ps)) == Some(ps)
  {
    if ps != [] {
      var first, rest := ps[0], ps[1..];
      assert first in ps && forall p <- rest :: p in ps;
      assert ps == [first] + rest;
      JoinHasNoLineFeed(ps);
      ParamsOfJoin(rest);
      ParamsNext(Join(ps));
      if rest == [] {
        OneParam(first);
      } else {
        FirstParam(ps);
      }
    }
  }

  lemma {:induction false} QuoteIsWellQuoted(s: string)
    ensures WellQuoted(Quote(s)) && (s != "" ==> Quote(s) != "") && ('\n' !in s ==> '\n' !in Quote(s))
  {
    if s != "" {
      var c, t := s[0], s[1..];
      assert s == [c] + t;
      QuoteHead(c, t);
      QuoteIsWellQuoted(t);
      var q := Quote(s);
      assert q[|QuotedChar(c)|..] == Quote(t);
    }
  }

  /** An empty quoted value is a syntax error. */
  lemma EmptyQuotedRefused(name: string)
    requires name != "" && '=' !in name
    ensures Params(Join([Param(name, "\"\"")])) == None
  {
    var s := Join([Param(name, "\"\"")]);
    assert s == name + ['='] + "\"\"";
    FindSkips(name, '=', "\"\"");
    assert s[|name| + 1..] == "\"\"" && "\"\""[1..] == "\"";
    assert QuotedLength("\"") == Some(0);
    assert MatchParam(s) == None;
  }

  /** A value without line feeds can be sent quoted if and only if it is not empty; it then reads back as
      itself exactly when it is unambiguous. */
  lemma QuotedParamRoundTrip(name: string, value: string)
    requires name != "" && '=' !in name && !IsSpace(name[0]) && '\n' !in name && '\n' !in value
    ensures var p := Param(name, "\"" + Quote(value) + "\"");
      && (Params(Join([p])) == Some([p]) <==> value != "")
      && (Unquote(p.value) == value <==> Unambiguous(value, false))
  {
    UnquoteQuote(value);
    if value == "" {
      assert "\"" + Quote(value) + "\"" == "\"\"";
      EmptyQuotedRefused(name);
    } else {
      QuotedIsProper(name, value);
      ParamsOfJoin([Param(name, "\"" + Quote(value) + "\"")]);
    }
  }

  lemma QuotedIsProper(name: string, value: string)
    requires name != "" && '=' !in name && !IsSpace(name[0]) && '\n' !in name && '\n' !in value && value != ""
    ensures ProperParam(Param(name, "\"" + Quote(value) + "\""))
  {
    var v := "\"" + Quote(value) + "\"";
    QuoteIsWellQuoted(value);
    assert v[1..|v| - 1] == Quote(value);
  }
}
