/** JID parts prepared by the node and resource profiles (pyxmpp2/jid.py over pyxmpp2/xmppstringprep.py). */
module JidProfiles {
  import opened Text
  import opened Jid
  import S = Stringprep

  /** The local and resource preparations: a profile, and a limit on what comes out. `tooLong` is the
      limit of 1023 bytes of UTF-8. */
  function PrepareWith(profile: S.Profile, tooLong: string -> bool, s: string): Option<string> {
    match S.Pipeline(profile, s)
    case Prepared(text) => if tooLong(text) then None else Some(text)
    case _ => None
  }

  function PrepOf(node: S.Profile, resource: S.Profile, domain: string -> Option<string>,
                  tooLong: string -> bool): Prep {
    Prep(s => PrepareWith(node, tooLong, s), domain, s => PrepareWith(resource, tooLong, s))
  }

  /** Both profiles map the characters of table B.1 of RFC 3454 to nothing. One of them as a local part, or
      as a resource, makes a JID that poisons the cache when it is printed. */
  lemma MappedAwayPoisons(node: S.Profile, resource: S.Profile, domainPrep: string -> Option<string>,
                          tooLong: string -> bool, c: char, domain: string)
    requires var p := PrepOf(node, resource, domainPrep, tooLong);
      Lawful(p) && domain != "" && p.domain(domain).Some? && !tooLong("")
    requires node.mapping(c) == Some("") && node.normalization.Some? && node.normalization.value("") == ""
    ensures var p := PrepOf(node, resource, domainPrep, tooLong);
      var ops := [Construct(Some([c]), Some(domain), None), Print(0)];
      && !NeverEmpty(p) && !Harmless(p, NEW, ops) && !Coherent(p, Run(p, NEW, ops).cache)
  {
    var p := PrepOf(node, resource, domainPrep, tooLong);
    S.MappedAway(node, c);
    assert p.local([c]) == Some("");
    EmptyPartPoisons(p, domain, [c]);
    var ops := [Construct(Some([c]), Some(domain), None), Print(0)];
    if Harmless(p, NEW, ops) {
      RunKeepsSound(p, NEW, ops);
    }
  }

  /** The characters a printed JID is split at never come out of a profile that prohibits them. */
  lemma ProhibitedNeverComesOut(profile: S.Profile, tooLong: string -> bool, s: string)
    requires profile.prohibited('@') && profile.prohibited('/')
    ensures var r := PrepareWith(profile, tooLong, s); r.Some? ==> '@' !in r.value && '/' !in r.value
  {
    if S.Pipeline(profile, s).Prepared? {
      S.PreparedAvoidsProhibited(profile, s, '@');
      S.PreparedAvoidsProhibited(profile, s, '/');
    }
  }
}
