# Verified model of PyXMPP2

PyXMPP2 is an XMPP library. This project models its provable parts in Dafny and proves properties of
them: the namespace-aware XML printer together with the stream parser, both ends of the SCRAM exchange,
DIGEST-MD5 quoting and parameter lists, the JID parser and its global cache, the IQ request tracker over
the expiring dictionary, the roster with its synchronisation and XML form, the search for an address to
connect to, the ordering of SRV records, the timeout scheduler and the stringprep cache.
`dafny verify dfyconfig.toml` checks everything.

## How it is organised

Behaviour is written twice. Functions say what an operation computes; where the Python code changes
fields or loops, a class or method does it the same way and its `ensures` ties the new state to the
function. The theorems are lemmas about the functions, so they hold of the objects too. What the main
functions give is said again in terms that do not use them or their helpers: as literal texts and formulas,
as a grammar or an RFC, or field by field.

- `Text`, `Bytes`: strings, decimal numerals, XOR.
- `Xml`: tags, a reader that resolves prefixes by sections 6.1 and 6.2 of Namespaces in XML 1.0 (and
  rejects repeated attributes by section 6.3), and the events it produces. It shares nothing with the
  printer.
- `Serializer`, `Meaning`, `XmppSerializer`: the printer as functions, what a receiver sees, the object.
- `ClarkNames`: names and the tree that should arrive, without the printer's functions.
- `ControlCharacters`: the replacement of characters that XML does not allow.
- `StreamParser`, `Stream`: the parser target, and printer, reader and target put together.
- `PrefixTables`, `FreshPrefixes`: exactly which prefix tables work, and that no prefix is made up twice.
- `Rfc5802`, `ScramPatterns`: SCRAM as the RFC words it, and the message patterns as grammars.
- `ScramMessages`, `Scram`, `ScramHonest`, `ScramOutcomes`, `ScramRuns`, `ScramServerRuns`,
  `ScramAuthenticators`: message syntax, the two state machines, the honest exchange, exactly when it
  succeeds, safety of either side over all runs, the objects.
- `Transport`, `ConnectionPlan`: the search for an address, and what it comes to in a given network.
- `Jid`, `JidProfiles`: the parser and the cache over any preparations, and over those of the profiles.
- `DigestMd5`, `ExpDict`, `IqTracker`, `Rosters`, `RosterSync`, `RosterXml`, `Resolver`, `Scheduler`,
  `Stringprep`: one component each.

## Main results

- Whatever tree is sent, reading the printed tags gives exactly the tree `Seen`, and that equals the tree
  sent (stanza namespaces folded into the stream's) if and only if the tree is `Printable` - no qualified
  attribute is in a namespace that is the default at its element, and folding makes no two attributes one -
  and has no control characters. For a whole stream of stanzas, prefix registrations and gaps this gives an
  if-and-only-if for what the peer's handler is told. It works for a prefix table if and only if the table is
  `TableOk`; for any other one a printable stanza is given that no reader accepts. No prefix is made up twice
  in a serializer's life.
- A SCRAM client reports success exactly if a verifier made with the server key of the first accepted
  challenge arrived, and a server exactly if the proof belonging to the first admitted message did and a
  password, salted password or keys are stored for its user, whatever else arrives. All keys, messages and
  proofs are those of RFC 5802. Two ends that agree both succeed if and only if their nonces and the salt fit.
- The JID cache is transparent at every point of a run, whatever the lawful preparations, if and only if the
  run never prints a JID with an empty part whose string is not cached.
- Of the handlers of an IQ registration at most one runs, and only for its reason: a timeout handler when
  the deadline has come, another one before it and for an answer from an allowed sender. And whoever
  registers is served: after any run that leaves the registration alone, the answer or the deadline runs it.
- Pushes are taken from our own server alone, and what is received is stored item by item.
- Roster pushes can be replayed after any of them were applied; the stored roster never gets a duplicate
  or a "remove" item. Whatever was received and loaded, saving and loading the roster gives it back, but for
  the mark of a repeated group, if and only if no JID in it has an empty part.
- The connection search tries the addresses in order without skips or repeats, comes to rest under every
  schedule of events, and tells the stream of one connection unless a job was left queued. It is exact when
  an attempt stalls. In any given network it connects to the first address of its plan that is up, having
  tried those before it, or is given up after the last.
- The scheduler calls the handlers due in order, all of them or up to the first after which QUIT was met,
  if what calls put back and add comes later; otherwise the loop can be endless, and it is exact when.

## What the code does that its documentation does not say

- `emit_head` is documented to declare the configured prefixes on the root element
  (pyxmpp2/xmppserializer.py:72-75, 91-93). Its loop walks the root prefixes themselves, so it declares
  only the stream prefix and the default namespace. The model follows the code.
- `add_prefix` does not check the prefix table. `TableOk` says exactly which tables work (`TableOkIff`): of
  the entries that are ever looked up no two share a prefix, and none has the empty prefix, `xml`, `xmlns`,
  `stream` or one with a colon. `IllegalPrefixBreaks`, `SharedPrefixBreaks` and `StreamPrefixBreaks` each
  give a stanza for one way to be bad.
- Control characters that XML does not allow are replaced in stanzas, so such a stanza does not arrive as
  sent (`CleanSeenIsFolded`).
- An attribute in the namespace that is the default at its element is printed without a prefix and so
  loses its namespace. `Printable` is the exact condition.
- `VALUE_CHARS_RE` ends in `$`, which lets a final line feed through. Such a nonce is used as it is: the
  server's makes a message that no client can parse (`LineFeedNonceBreaks`), and the client's is taken
  without the line feed by the server, so that the client refuses the joint nonce (`LineFeedNonceShortened`).
  An empty salt is sent but not parsed (`EmptySaltBreaks`). `HonestRunIff` is exact.
- A salt that is not base64 makes `challenge` raise: the sources are Python 2, where `binascii.Error` is no
  `ValueError`.
- `JID(None)` is an error only while the string "None" is not in the cache (`NoneIsAnError`).
- Node and resource preparation turn a string such as a single soft hyphen into the empty string. A JID
  made from one and then printed is cached under the address without that part (`MappedAwayPoisons`,
  `EmptyPartPoisons`). `CoherentIffHarmless` and `CacheIsTransparent` are exact.
- `_unquote` does not undo `_quote` where a backslash stands directly before a backslash or a quote
  (`UnquoteQuote` is exact). An empty quoted value, `""`, is sent but is a syntax error for `PARAM_RE`
  (`EmptyQuotedRefused`).
- The stringprep cache needs a size of at least 2 to stay within it (`BoundNeedsTwo`). A profile without
  normalization never prepares anything: the checks run first and may refuse, and then a list is joined with
  no argument, a `TypeError`.
- An empty roster is false in Python, so a versioned answer without payload is reported as not received.
- `pop` of the expiring dictionary never uses its default: an absent key is reported as missing.
- `handle_err` gives up the connection although host names are left (`SecondHostNotTried`;
  `GivesUpEarlyIff` is exact), and moving on to the next address leaves the old job in the write queue,
  so the stream may be told twice that it is connected (`AnnouncedOnceIff` is exact).
- A connection attempt stalls when connect() reports a second time that it would block and no address is
  left: the job that would continue it is not put back, and only a socket error ends it, though host names
  may be left (`StallBegins`, `StallsIff`, `SecondHostNotReached`).
- A recurring timeout handler with an interval of 0 or less is due again in the same call, so the loop ends
  only by QUIT (`RelentlessNeverEnds`; `EndsIff` is exact).
- A contact whose JID has an empty part is saved without it. It comes back as another contact, or not at all
  if that one is there (`SaveLoad` is exact, `NoneLostIff`, `ContactLost`).
- `_duplicate_group` is set by parsing a repeated group but never written, so saving and loading drops it.

## Model

| member | source | states |
|---|---|---|
| ClarkNames.NamesSplit | pyxmpp2/xmppserializer.py:155-176 | for every name: "{ns}local" is split at the first closing brace, with the two stanza namespaces folded, an attribute without a brace stays as it is, and all else is an error |
| ClarkNames.EmitFailsIff | pyxmpp2/xmppserializer.py:275-325 | printing raises if and only if some tag has no closed namespace or some attribute opens a brace and does not close it |
| Meaning.EmitMeaning | pyxmpp2/xmppserializer.py:275-325 | for every tree with legal names and every prefix table that works, printing does not fail and reading the output in the scope it was printed for gives exactly the events of the tree as seen, at any depth and whatever is in scope |
| Meaning.EmitAllMeaning | pyxmpp2/xmppserializer.py:307-310 | the same for a list of children, with the prefix counter passed along |
| Meaning.SeenIsFolded | pyxmpp2/xmppserializer.py:155-176 | what is seen is well-formed and equals the tree sent if and only if the tree is printable where it stands; the tree sent has "jabber:client" and "jabber:server" as the stream's namespace and is otherwise unchanged |
| Meaning.AllSeenAreFolded | pyxmpp2/xmppserializer.py:307-310 | the same for a list of children |
| Meaning.AttrsKept | pyxmpp2/xmppserializer.py:223-242 | an attribute list keeps its namespaces exactly when none of them is in the set printed without a prefix |
| Meaning.TagMeaning | pyxmpp2/xmppserializer.py:291-306 | a start tag's declarations are legal, and its printed name and attributes resolve to the seen ones in the scope they open |
| Meaning.ChildrenExact | pyxmpp2/xmppserializer.py:262-273 | the map handed to children is exact: every entry resolves to its own namespace in the emitted scope, no two share a prefix, exactly one is the default |
| Meaning.EvictKeeps | pyxmpp2/xmppserializer.py:262-272 | the dropping loop drops the old default when it is replaced and nothing else |
| Meaning.PrefixedMakesStep | pyxmpp2/xmppserializer.py:223-242 | printing one name adds at most its namespace to the map, changes no entry, and the printed form is the name under the resulting map |
| Meaning.PrefixedKeepsMidway | pyxmpp2/xmppserializer.py:223-242 | the declarations of a tag stay one-to-one, legal and apart from the configured prefixes after each name |
| Meaning.AttrsPrinted | pyxmpp2/xmppserializer.py:298-301 | after the attribute loop every attribute is printed as the final map says, though earlier ones were printed under a smaller map |
| Meaning.EnterResolves | pyxmpp2/xmppserializer.py:261-273 | declarations made over an exact map are legal and every prefixed entry resolves in the scope they open |
| Meaning.FreshIdIsFirstUnused | pyxmpp2/xmppserializer.py:190-198 | the search for a fresh prefix ends at the first number whose prefix is unused |
| Meaning.FreshPrefixIsFree | pyxmpp2/xmppserializer.py:190-198 | a made-up prefix is neither in scope nor configured |
| PrefixTables.TableOkIff | pyxmpp2/xmppserializer.py:88-104 | a prefix table works - every stanza reads as the tree that is seen, every printable one without control characters as the tree sent - if and only if, of the entries that can be looked up, no two share a prefix and none has an empty or reserved prefix or one with a colon |
| PrefixTables.BadTableBreaks | pyxmpp2/xmppserializer.py:223-242 | for any other table there is a printable stanza without control characters that is printed but that no reader accepts |
| PrefixTables.IllegalPrefixBreaks | pyxmpp2/xmppserializer.py:230-242 | a configured prefix with a colon, xml or xmlns makes a stanza that no reader accepts |
| PrefixTables.SharedPrefixBreaks | pyxmpp2/xmppserializer.py:223-242 | so do two namespaces configured to one prefix, and an empty prefix beside a default namespace |
| PrefixTables.StreamPrefixBreaks | pyxmpp2/xmppserializer.py:223-242 | so does a namespace configured to the prefix of the stream namespace |
| FreshPrefixes.MadeUpOnce | pyxmpp2/xmppserializer.py:178-198 | over the whole life of a serializer a prefix that is neither empty nor ever configured is declared by one tag, for one namespace |
| FreshPrefixes.RunNumbered | pyxmpp2/xmppserializer.py:275-344 | the prefixes made up in a run have the numbers from the counter before it to the counter after it, each once |
| XmppSerializer.EmitGrows | pyxmpp2/xmppserializer.py:275-325 | printing an element never takes the prefix counter back, even if it fails |
| XmppSerializer.EvictOneMore | pyxmpp2/xmppserializer.py:261-272 | dropping what one more declaration hides, in any order of the dictionaries, adds up to dropping what all of them hide |
| XmppSerializer.StanzaMeaning | pyxmpp2/xmppserializer.py:327-344 | a stanza reads back as the tree sent - each name as it is, the two stanza namespaces folded - if and only if it is printable at the root and has no control characters |
| XmppSerializer.XMPPSerializer.constructor | pyxmpp2/xmppserializer.py:67-86 | initial fields |
| XmppSerializer.XMPPSerializer.AddPrefix | pyxmpp2/xmppserializer.py:88-104 | the table gets the entry, except that the prefix xml is refused for another namespace |
| XmppSerializer.XMPPSerializer.EmitHead | pyxmpp2/xmppserializer.py:106-149 | the root start tag; it reads as the stream element with version, and from, to, id and language exactly if given, each with its own value, and binds xml, stream and the default namespace |
| XmppSerializer.XMPPSerializer.EmitTail | pyxmpp2/xmppserializer.py:151-153 | the end tag that matches the head, or failure before the head |
| XmppSerializer.XMPPSerializer.MakePrefix | pyxmpp2/xmppserializer.py:178-198 | the loop finds the first free number, takes the counter past it, and the prefix is in no dictionary |
| XmppSerializer.XMPPSerializer.MakePrefixed | pyxmpp2/xmppserializer.py:200-242 | printed name, both dictionaries and counter are those of the function the theorems are about |
| XmppSerializer.XMPPSerializer.DropObsolete | pyxmpp2/xmppserializer.py:244-273 | the nested loops leave exactly the entries no new declaration hides |
| XmppSerializer.XMPPSerializer.DropHiddenBy | pyxmpp2/xmppserializer.py:269-272 | the inner loop drops exactly the other namespaces with the declared prefix |
| XmppSerializer.XMPPSerializer.EmitTagNames | pyxmpp2/xmppserializer.py:291-301 | names of a start tag in order, stopping at the first bad one |
| XmppSerializer.XMPPSerializer.EmitChildren | pyxmpp2/xmppserializer.py:307-310 | children printed in order with one counter, stopping at the first that fails |
| XmppSerializer.XMPPSerializer.EmitElement | pyxmpp2/xmppserializer.py:275-325 | the recursive printer: output, failure and counter |
| XmppSerializer.XMPPSerializer.EmitStanza | pyxmpp2/xmppserializer.py:327-344 | refused before the head; raises exactly for a name without namespace on a tag or an unclosed brace; otherwise what it returns, control characters replaced, reads back as the stanza exactly when that is printable and has none |
| ControlCharacters.EmitClean | pyxmpp2/xmppserializer.py:40-44 | replacing the characters in what is printed gives what the tree without them prints |
| ControlCharacters.CleanSeenIsFolded | pyxmpp2/xmppserializer.py:344 | a tree whose texts are cleaned on the way is seen as the tree sent if and only if it is printable where it stands and there was nothing to clean |
| StreamParser.ElementBuilt | pyxmpp2/xmppparser.py:103-158 | below a stanza's start tag the events of any element add that element to the open one, tail text included |
| StreamParser.StanzaDelivered | pyxmpp2/xmppparser.py:133-158 | under the root the events of an element make one stream_element call with that element, whatever the builder held before |
| StreamParser.ChunkedText | pyxmpp2/xmppparser.py:103-110 | where the parser cuts text into pieces does not matter |
| StreamParser.EventsInjective | pyxmpp2/xmppparser.py:103-158 | an element can be told from its events |
| StreamParser.OddEvents | pyxmpp2/xmppparser.py:103-158 | end tags that do not match, and text outside of stanzas |
| StreamParser.ParserTarget.constructor | pyxmpp2/xmppparser.py:88-101 | nothing open, nothing called |
| StreamParser.ParserTarget.Data | pyxmpp2/xmppparser.py:103-110 | text outside stanzas is dropped, other text goes to the open element or the last child's tail |
| StreamParser.ParserTarget.Start | pyxmpp2/xmppparser.py:112-127 | the root is announced once, a new builder starts at each stanza, the level grows |
| StreamParser.ParserTarget.End | pyxmpp2/xmppparser.py:133-158 | each of the five outcomes of an end tag, including the builder's assertion |
| Stream.HeadReads | pyxmpp2/xmppserializer.py:122-149 | the head reads as the stream element with exactly the attributes the arguments call for, and binds exactly xml, stream and the default namespace |
| Stream.StreamDelivers | pyxmpp2/xmppserializer.py:327-344 | for every run of stanzas, prefix registrations and gaps, each stanza sent under a table that works: the peer's handler gets stream_start, the stanzas as seen and stream_end, or the peer's parser rejects the stream, and exactly when |
| Stream.RunPreserved | pyxmpp2/xmppserializer.py:155-176 | all stanzas of a run are seen as sent if and only if each was printable when it was sent and had no control characters |
| Stream.StreamRoundTrip | pyxmpp2/xmppparser.py:103-158 | stream_start once, then stream_element once per stanza in order with the equal tree, then stream_end once, if and only if every stanza was printable and had no control characters |
| ScramMessages.UnescapeEscape | pyxmpp2/sasl/scram.py:136-160 | the two-pass unescape undoes the two-pass escape for every byte string |
| ScramMessages.EscapedShape | pyxmpp2/sasl/scram.py:136-147 | an escaped name has no comma, and no equals sign outside =2C and =3D |
| ScramMessages.EscapedIsValue | pyxmpp2/sasl/scram.py:52-53 | an escaped name fits the pattern for values exactly when the name is printable ASCII without spaces |
| Rfc5802.EscapeIsSaslName | pyxmpp2/sasl/scram.py:136-147 | escape replaces each comma and equals sign, and nothing else, as section 5.1 of RFC 5802 has it |
| Rfc5802.UnescapeIsFromSaslName | pyxmpp2/sasl/scram.py:149-160 | unescape, in two passes, decodes every string as one pass from left to right does |
| ScramPatterns.ClientFirstFits | pyxmpp2/sasl/scram.py:55-62 | every text of the pattern's form is parsed into its parts |
| ScramPatterns.ClientFirstFound | pyxmpp2/sasl/scram.py:55-62 | and no other text is parsed |
| ScramPatterns.ServerFirstFits | pyxmpp2/sasl/scram.py:64-70 | the same for the server's first message |
| ScramPatterns.ServerFirstFound | pyxmpp2/sasl/scram.py:64-70 | and no other text is parsed |
| ScramPatterns.ClientFinalFits | pyxmpp2/sasl/scram.py:72-77 | the same for the client's final message, whose extensions reach to the last proof |
| ScramPatterns.ClientFinalFound | pyxmpp2/sasl/scram.py:72-77 | and no other text is parsed |
| ScramPatterns.ServerFinalExact | pyxmpp2/sasl/scram.py:79-80 | the same for the server's final message |
| ScramPatterns.ServerFinalFound | pyxmpp2/sasl/scram.py:79-80 | and no other text is parsed |
| Bytes.XorBits | pyxmpp2/sasl/scram.py:115-124 | XOR is bitwise, up to the end of the shorter string |
| Bytes.XorUndone | pyxmpp2/sasl/scram.py:115-124 | XOR with a mask of the same length is undone by XOR with it |
| Scram.ComputeHi | pyxmpp2/sasl/scram.py:126-134 | the loop computes U1 XOR ... XOR Ui of section 2.2 of RFC 5802, and U1 for a count of 0 |
| Rfc5802.HiAgrees | pyxmpp2/sasl/scram.py:126-134 | that is the XOR of the sequence U1, ..., Ui with U1 = HMAC(str, salt + INT(1)) and each next one HMAC(str, U) |
| Rfc5802.NonceAgrees | pyxmpp2/sasl/scram.py:206-210 | a nonce of value characters, or with one final line feed, is used as it is, any other encoded |
| Rfc5802.MessagesAgree | pyxmpp2/sasl/scram.py:203-245 | the client's header, bare first message and final message without proof, as literal concatenations |
| ScramHonest.ClientFirstParses | pyxmpp2/sasl/scram.py:55-62 | the server's pattern takes a client's first message apart into what it was made of |
| ScramHonest.ServerFirstParses | pyxmpp2/sasl/scram.py:64-70 | the same for the server's first message and the client's pattern |
| ScramHonest.ClientFinalParses | pyxmpp2/sasl/scram.py:72-77 | the same for the client's final message |
| ScramHonest.ServerFinalParses | pyxmpp2/sasl/scram.py:79-80 | the same for the server's final message |
| ScramHonest.FirstStep | pyxmpp2/sasl/scram.py:440-542 | the server admits an honest first message and answers with the combined nonce, salt and count |
| ScramHonest.SecondStep | pyxmpp2/sasl/scram.py:247-328 | the client answers with a proof over the auth message of section 3 of RFC 5802 |
| ScramHonest.ThirdStep | pyxmpp2/sasl/scram.py:544-585 | the server accepts the proof for the same auth message and returns username and authzid |
| ScramHonest.HonestRun | pyxmpp2/sasl/scram.py:203-585 | whenever the ends agree and the nonces and the salt fit: the server succeeds with the client's identity and the client with the server's signature over the auth message both built |
| ScramRuns.ClientTracks | pyxmpp2/sasl/scram.py:247-367 | after any calls the client's fields are a function of the first well-formed challenge, and it is finished exactly if the server has proved itself |
| ScramRuns.ClientSafety | pyxmpp2/sasl/scram.py:247-397 | for any sequence of challenge and finish calls with arbitrary bytes: success exactly in finish and exactly if a received verifier equals the HMAC under the server key of the auth message of the first challenge, all as RFC 5802 has them |
| ScramOutcomes.HonestRunIff | pyxmpp2/sasl/scram.py:203-585 | two ends that agree on names, channel binding and a password in any of the three stored formats both succeed if and only if the client has a nonce, neither nonce is sent with a final line feed, and the salt is not empty |
| ScramOutcomes.FirstMessageAnswered | pyxmpp2/sasl/scram.py:440-542 | which first messages a server answers, with or without channel binding and for any nonce, in both directions |
| ScramOutcomes.LineFeedNonceBreaks | pyxmpp2/sasl/scram.py:52 | a server nonce that ends in a line feed is used as it is and no client can parse the message |
| ScramOutcomes.LineFeedNonceShortened | pyxmpp2/sasl/scram.py:52-62 | the server takes such a client nonce without its line feed |
| ScramOutcomes.EmptySaltBreaks | pyxmpp2/sasl/scram.py:64-70 | no client can parse a first message with an empty salt |
| ScramRuns.LaterCalls | pyxmpp2/sasl/scram.py:330-397 | the reply to every later challenge and finish, in every case |
| ScramRuns.SuccessMeansProved | pyxmpp2/sasl/scram.py:330-397 | client safety over parsed messages |
| ScramServerRuns.ServerTracks | pyxmpp2/sasl/scram.py:424-542 | after any responses the server's fields are a function of the first admitted message |
| ScramServerRuns.ServerSafety | pyxmpp2/sasl/scram.py:432-585 | for any sequence of responses: success exactly if the last one brings the proof of the client key stored, or derived from what is stored, for the user of the first admitted message, for its auth message, nonce and channel; never for a user for whom nothing is stored; the identity is the one named there |
| ScramServerRuns.FirstAnswered | pyxmpp2/sasl/scram.py:440-542 | the answer to a first message in every case: the joint nonce with the user's salt and count, or those of the setup for an unknown user, or a refusal |
| ScramServerRuns.Refused | pyxmpp2/sasl/scram.py:544-585 | every last response without the proof is refused, or an exception if it cannot be decoded, whether the user exists or not |
| ScramServerRuns.ProofChecked | pyxmpp2/sasl/scram.py:544-585 | once a first message is admitted, one more response succeeds exactly if it brings that message's proof |
| ScramAuthenticators.SCRAMClientAuthenticator.Start | pyxmpp2/sasl/scram.py:203-245 | the first message and the fields for the properties given, the binding chosen from them; an exception exactly for channel binding without data |
| ScramAuthenticators.SCRAMClientAuthenticator.ChooseBinding | pyxmpp2/sasl/scram.py:212-222 | an error exactly when there is no data; else tls-unique, or else tls-server-end-point, or else the first key |
| ScramAuthenticators.SCRAMClientAuthenticator.Challenge | pyxmpp2/sasl/scram.py:247-297 | each reply and field change of challenge |
| ScramAuthenticators.SCRAMClientAuthenticator.TakeFirst | pyxmpp2/sasl/scram.py:271-297 | an extension and a foreign nonce are a bad challenge, a salt that is not base64 an exception, and the fields kept in each case |
| ScramRuns.ClientSends | pyxmpp2/sasl/scram.py:203-328 | the first message, and the answer to the first challenge in every case: "c=", the encoded header and channel data, ",r=", the nonce, ",p=", and the encoded XOR of client key and client signature over the two first messages and this one - or the failure or exception |
| ScramAuthenticators.SCRAMClientAuthenticator.FinalChallenge | pyxmpp2/sasl/scram.py:330-367 | the client is finished only by a matching verifier |
| ScramAuthenticators.SCRAMClientAuthenticator.Finish | pyxmpp2/sasl/scram.py:369-397 | each reply of finish |
| ScramAuthenticators.SCRAMServerAuthenticator.Start | pyxmpp2/sasl/scram.py:424-430 | a new exchange, with or without an initial response |
| ScramAuthenticators.SCRAMServerAuthenticator.Response | pyxmpp2/sasl/scram.py:432-438 | which of the two handlers a response reaches |
| ScramAuthenticators.SCRAMServerAuthenticator.HandleFirstResponse | pyxmpp2/sasl/scram.py:440-444 | a message that does not parse is refused without any change |
| ScramHonest.BindingAcceptedIff | pyxmpp2/sasl/scram.py:453-473 | a client's header passes the channel binding checks if and only if both ends use channel binding, of a type the server has data for, or neither does and they are not both able to |
| ScramHonest.FitNonceIsValue | pyxmpp2/sasl/scram.py:528-530 | unless it ends in a line feed, a nonce from the factory is sent in a form that fits a message, and is empty only if it was |
| ScramServerRuns.LookupIs | pyxmpp2/sasl/scram.py:490-525 | by cases of the database: keys are derived from a password, derived from a salted password, or taken as stored; a missing user and an empty salted entry have none |
| ScramAuthenticators.SCRAMServerAuthenticator.AnswerFirst | pyxmpp2/sasl/scram.py:446-542 | the fields kept and the message sent, or no change to the exchange |
| ScramAuthenticators.SCRAMServerAuthenticator.HandleFinalResponse | pyxmpp2/sasl/scram.py:544-585 | each check in order, with failure, exception or success |
| Jid.EveryAddress | pyxmpp2/jid.py:151-186 | every string is an address in one way: local part, domain and resource told apart by the first slash and the first at sign before it |
| Jid.ParsesAs | pyxmpp2/jid.py:151-210 | and is parsed part by part: an error for a part that cannot be prepared or a missing domain, else the prepared parts, an empty one being none |
| Jid.ConstructsFromParts | pyxmpp2/jid.py:104-144 | JID(local, domain, resource), checked or not, from its parts and without the cache |
| Jid.ConstructsFromString | pyxmpp2/jid.py:117-144 | JID(string) is what the cache has, or the parse, which is then cached |
| Jid.PrintsAs | pyxmpp2/jid.py:305-322 | a JID is printed as the address of the parts that are not empty |
| Jid.ParsePrinted | pyxmpp2/jid.py:305-316 | parsing a printed JID gives it back if and only if it has no empty part; otherwise the JID without it |
| Jid.CoherentIffHarmless | pyxmpp2/jid.py:104-144 | for any lawful preparations: at every point of a run every cached string maps to what parsing it afresh gives, if and only if the run never prints a JID with an empty part whose string is not cached |
| Jid.StepCoherentIff | pyxmpp2/jid.py:305-316 | one construction, print, bare call or loss of entries keeps a right cache right exactly unless it is such a print |
| Jid.PoisonIsSeen | pyxmpp2/jid.py:305-316 | a run with such a print reaches a cache that answers some string wrongly |
| Jid.RunKeepsSound | pyxmpp2/jid.py:104-144 | without such a print, after any run the cache is right and all JIDs at hand have prepared parts |
| Jid.PrintedCoherentIff | pyxmpp2/jid.py:305-316 | printing a JID keeps a right cache right exactly when it has no empty part or its string is cached |
| Jid.CacheIsTransparent | pyxmpp2/jid.py:117-144 | for any lawful preparations: JID of a string is at every point of a run the uncached parse, if and only if the run never prints a JID with an empty part whose string is not cached |
| Jid.EmptyPartPoisons | pyxmpp2/jid.py:305-316 | a part prepared to nothing makes the cache wrong: a run that shows it |
| JidProfiles.MappedAwayPoisons | pyxmpp2/jid.py:188-210 | with node and resource profiles that map a character to nothing, a JID of that one character and a domain, printed, makes the cache wrong |
| JidProfiles.ProhibitedNeverComesOut | pyxmpp2/xmppstringprep.py:173-180 | what a printed JID is split at never comes out of a profile that prohibits it |
| Jid.NeverEmptyIsHarmless | pyxmpp2/jid.py:305-316 | if preparation never yields an empty part no run makes the cache wrong |
| Jid.CoherentIffNeverEmpty | pyxmpp2/jid.py:104-144 | all runs keep the cache right exactly when preparation never yields an empty part |
| Jid.NewKeepsSound | pyxmpp2/jid.py:104-144 | a checked construction keeps the cache right and yields prepared parts, whatever the preparations |
| Jid.BareKeepsSound | pyxmpp2/jid.py:318-322 | an unchecked bare JID has prepared parts and touches no cache entry |
| Jid.NoneIsAnError | pyxmpp2/jid.py:117-131 | JID(None) is refused exactly while the string "None" is not cached |
| Jid.JIDCache.Make | pyxmpp2/jid.py:104-144 | result and new cache of a construction; a coherent cache stays coherent and answers as the parser |
| Jid.JIDCache.PrintJid | pyxmpp2/jid.py:305-316 | the printed form, the cache entry it leaves, and exactly when the cache stays right |
| Jid.JIDCache.MakeBare | pyxmpp2/jid.py:318-322 | the bare JID, no cache change |
| ExpDict.SetIs | pyxmpp2/expdict.py:88-110 | value and deadline are stored under the key, with the default timeout for none or zero, and nothing else changes |
| ExpDict.PopIs | pyxmpp2/expdict.py:75-82 | the key goes; a value whose deadline has not come is handed over, and one whose deadline has is called back |
| ExpDict.GetIs | pyxmpp2/expdict.py:69-73 | the same, but a value whose deadline has not come stays |
| ExpDict.ExpireAll | pyxmpp2/expdict.py:112-131 | exactly the expired among the visited keys go, the rest stay as they were, both tables together |
| ExpDict.ExpireAllFires | pyxmpp2/expdict.py:138-163 | each expired key with a callback has it called exactly once, with its value, and no other |
| ExpDict.NextTimeoutStep | pyxmpp2/expdict.py:124-130 | the running minimum is the least time left among the keys visited |
| ExpDict.ExpiringDictionary.SetItem | pyxmpp2/expdict.py:88-110 | value and deadline set together, with the default timeout for none or zero |
| ExpDict.ExpiringDictionary.ExpireItem | pyxmpp2/expdict.py:138-163 | missing key, expiry with callback, or the time left |
| ExpDict.ExpiringDictionary.Pop | pyxmpp2/expdict.py:75-82 | an expired item is gone with its callback called, a live one is handed over, both tables agree |
| ExpDict.ExpiringDictionary.GetItem | pyxmpp2/expdict.py:69-73 | an expired item is not returned |
| ExpDict.ExpiringDictionary.DelItem | pyxmpp2/expdict.py:63-67 | both tables lose the key |
| ExpDict.ExpiringDictionary.Clear | pyxmpp2/expdict.py:133-136 | both tables empty, no callback |
| ExpDict.ExpiringDictionary.Expire | pyxmpp2/expdict.py:112-131 | every key visited once in some order; returns the least time to a deadline, None exactly when the dictionary is left empty |
| IqTracker.HandlersRunAtMostOnce | pyxmpp2/stanzaprocessor.py:145-193 | over any run of registrations, answers, expiries, clears and changes of identity: at most one handler of a registration runs; a timeout handler only at or after the deadline, another one only before it, for an answer with the registered id and type from an allowed sender; values and deadlines have equal keys |
| IqTracker.AnswerInTime | pyxmpp2/stanzaprocessor.py:157-193 | an answer from the registered address in time runs the handler for its type and nothing else |
| IqTracker.AnswerTooLate | pyxmpp2/expdict.py:138-163 | a late answer from a sender that may not answer for us runs the timeout handler and nothing else |
| IqTracker.FallbackInTime | pyxmpp2/stanzaprocessor.py:157-193 | with nothing to hand over for its own address, an answer from ourselves or the peer runs the handler, in time, of the request with the same id sent to no one, after a timeout handler due under its own address |
| IqTracker.FallbackTooLate | pyxmpp2/stanzaprocessor.py:157-193 | late, it runs the timeout handlers due under either key, and both registrations are gone |
| IqTracker.TakeIsFresh | pyxmpp2/stanzaprocessor.py:157-181 | the registration taken was in the table, is gone, fits id and sender, and none timed out by the way is the same |
| IqTracker.ExpiryKeepsInOrder | pyxmpp2/expdict.py:112-131 | an expiry tick keeps the history right |
| IqTracker.RegisterFiles | pyxmpp2/stanzaprocessor.py:422-444 | the handlers are filed under the id and the address, with now plus the timeout, or the default for none, as deadline, and nothing else changes |
| IqTracker.AnswerIsServed | pyxmpp2/stanzaprocessor.py:145-193 | after any run that leaves the registration alone, an answer in time from the registered address runs exactly its handler |
| IqTracker.AnyoneIsServed | pyxmpp2/stanzaprocessor.py:168-179 | the same for a request sent to no one, answered by the peer or ourselves |
| IqTracker.TimeoutIsServed | pyxmpp2/expdict.py:112-131 | and at an expiry after the deadline the timeout handler runs |
| IqTracker.StanzaProcessor.SetResponseHandlers | pyxmpp2/stanzaprocessor.py:422-444 | the object does what the function the theorems are about says; the history stays right |
| IqTracker.StanzaProcessor.ProcessIqResponse | pyxmpp2/stanzaprocessor.py:145-193 | both pops, the sender check between them, and the handler run |
| IqTracker.StanzaProcessor.Expire | pyxmpp2/expdict.py:112-131 | the loop over all registrations; the history stays right |
| IqTracker.StanzaProcessor.ClearResponseHandlers | pyxmpp2/stanzaprocessor.py:446-448 | all registrations gone, no handler run |
| Rosters.Roster.AddItem | pyxmpp2/roster.py:606-627 | an existing JID is refused or replaced, which moves it to the end; the index stays exact |
| Rosters.Roster.RemoveItem | pyxmpp2/roster.py:629-643 | exactly that item goes, the others keep their order; the index stays exact |
| Rosters.Roster.ShiftDown | pyxmpp2/roster.py:640-641 | the loop takes every later position down by one |
| Rosters.IndexAfterRemoval | pyxmpp2/roster.py:638-643 | after shifting and deleting, the index again maps each JID exactly to its position |
| Rosters.MakeRoster | pyxmpp2/roster.py:489-498 | the constructor accepts exactly lists without a "remove" item and without duplicate JIDs |
| RosterSync.PushesSplit | pyxmpp2/roster.py:800-829 | pushes leave items they do not name as they are, in front; what follows depends on the pushes alone |
| RosterSync.ReplayConverges | pyxmpp2/roster.py:800-829 | pushes applied before leave no trace once a sequence naming their JIDs is applied, not even in the order |
| RosterSync.ReplayAfterPrefix | pyxmpp2/roster.py:800-829 | a push sequence after any prefix of it equals the sequence once (section 2.6 of RFC 6121) |
| RosterSync.PushesKeepVersion | pyxmpp2/roster.py:800-829 | between results and loads the roster is the last one received or loaded with the accepted pushes applied, and its version is untouched |
| RosterSync.FixedIsClean | pyxmpp2/roster.py:783-787 | the constructor never rejects a parsed payload in _get_success |
| RosterSync.RosterStaysClean | pyxmpp2/roster.py:670-829 | no run of results, pushes and loads stores a "remove" item or a duplicate |
| RosterSync.PushIsAnswered | pyxmpp2/roster.py:800-829 | a push is refused unless it has no sender or our own server's local part, domain and resource; one without exactly one item is a bad request; neither changes anything |
| RosterSync.PushTakesEffect | pyxmpp2/roster.py:813-829 | the item with the pushed JID goes, the others keep their places, and unless it is a removal the pushed item, verified, comes last; the event has the old item |
| RosterSync.PushedIsStored | pyxmpp2/roster.py:813-829 | an item pushed with "remove" is not in the roster afterwards, any other is |
| RosterSync.ResultIsStored | pyxmpp2/roster.py:772-788 | each item of a result is stored with its JID, name, groups and approval, its subscription if from, to or both, and its ask if subscribe |
| RosterSync.FileIsStored | pyxmpp2/roster.py:670-688 | a file is loaded the same way unless an item has the subscription "remove" or a JID is there twice |
| RosterSync.ServerIsOurs | pyxmpp2/roster.py:743-746 | our own server is our JID without its resource |
| RosterSync.RosterClient.LoadRoster | pyxmpp2/roster.py:670-688 | the new roster with its items fixed, or an exception and no change |
| RosterSync.RosterClient.FixAll | pyxmpp2/roster.py:686-687 | each item verified with fixing, in order |
| RosterSync.RosterClient.OnGetSuccess | pyxmpp2/roster.py:772-788 | the new roster, each item verified, or the old one kept, and the event |
| RosterSync.RosterClient.OnRosterPush | pyxmpp2/roster.py:800-829 | the push is refused exactly if the sender is not entitled, only an acknowledged one changes anything, and then as the function says |
| RosterSync.RosterClient.UpdateRoster | pyxmpp2/roster.py:822-828 | the item is removed, or added in place of the old one, and the event names the old item |
| RosterSync.FindIsIndexed | pyxmpp2/roster.py:822 | looking an item up through the index finds the item with the JID, if there is one |
| RosterXml.ItemIsRead | pyxmpp2/roster.py:191-235 | an item is read exactly from an item element with a JID that parses, field by field |
| RosterXml.GroupsAre | pyxmpp2/roster.py:215-222 | its groups are the texts of the group children, and it is marked exactly if one comes twice |
| RosterXml.ItemsAreRead | pyxmpp2/roster.py:404-434 | the items are the first for each JID, in order, and reading fails exactly if some item does |
| RosterXml.PayloadIsRead | pyxmpp2/roster.py:404-434 | a payload is read exactly from a query element whose items can be read, with its version |
| RosterXml.ItemIsWritten | pyxmpp2/roster.py:237-260 | exactly the attributes that are there, and the groups as children |
| RosterXml.RosterIsWritten | pyxmpp2/roster.py:436-446 | the query element with its version and its items in order |
| RosterXml.ItemRoundTrip | pyxmpp2/roster.py:191-260 | decoding an encoded item gives it back, "none" and an empty ask being no values, if and only if its JID has no empty part; otherwise with the JID without it |
| RosterXml.RosterRoundTrip | pyxmpp2/roster.py:404-446 | decoding the encoded roster, whatever order the groups are written in, gives the same version and, in order, the items that survive; these are all items unchanged if and only if no JID has an empty part |
| RosterXml.PrettyIsHarmless | pyxmpp2/roster.py:706-724 | the added whitespace never changes what is decoded, for any element |
| RosterXml.SaveLoad | pyxmpp2/roster.py:670-726 | for any clean roster with prepared JIDs, pretty or not: what is loaded are the items that survive, and it is the roster saved, up to the mark of a repeated group, if and only if no JID has an empty part |
| RosterXml.StoredIsSaveable | pyxmpp2/roster.py:670-829 | whatever a client receives and loads, the roster it stores is clean and has prepared JIDs |
| RosterXml.NoneLostIff | pyxmpp2/roster.py:418-434 | no contact is lost if and only if no two JIDs are the same but for empty parts |
| RosterXml.ContactLost | pyxmpp2/roster.py:191-260 | two contacts received, one with a local part that is prepared to nothing, are one after saving and loading |
| RosterXml.ParsedIsDistinct | pyxmpp2/roster.py:418-434 | a parsed payload has distinct JIDs |
| RosterXml.ItemAsXml | pyxmpp2/roster.py:237-260 | attributes in order and each group once |
| RosterXml.ItemFromXml | pyxmpp2/roster.py:191-235 | the group loop and the item it makes, or an error |
| RosterXml.PayloadFromXml | pyxmpp2/roster.py:404-434 | the item loop: foreign elements and repeated JIDs are passed over, a bad item is an error |
| ConnectionPlan.PlanCarriedOut | pyxmpp2/transport.py:228-409 | in any network the search tries the addresses of the literal address, the service's targets or the name, in order with their ports, is connected to the first that is up and told of once, or is given up after the last |
| Transport.CandidatesInOrder | pyxmpp2/transport.py:228-409 | over any run, the addresses given to connect() and those left make up the addresses found, the names looked up and those left make up the targets; without a socket error the search is given up only when all were tried |
| Transport.SearchEnds | pyxmpp2/transport.py:529-553 | under every endless schedule of steps, answers and outcomes, prepare() is from some point on only called while connecting, connected or aborted |
| Transport.WorkEnds | pyxmpp2/transport.py:529-553 | by a measure of phase, names left and addresses left, there is a last step that does any work |
| Transport.StepShrinks | pyxmpp2/transport.py:228-409 | no step enlarges the measure and a step that works makes it smaller |
| Transport.GivesUpEarlyIff | pyxmpp2/transport.py:772-786 | a step aborts with candidates left exactly for a socket error with no address of the current host to move on to |
| Transport.SecondHostNotTried | pyxmpp2/transport.py:772-786 | an error on the first host's only address ends the search though a second host is left |
| Transport.StallsIff | pyxmpp2/transport.py:383-409 | at any point of a search, an attempt under way can end without a socket error if and only if it has a job queued or an address left, whatever names are left |
| Transport.StallBegins | pyxmpp2/transport.py:383-409 | an attempt stalls in exactly one way: its last job meets a connect() that would block again, with no address left |
| Transport.SecondHostNotReached | pyxmpp2/transport.py:610-624 | a run after which, without a socket error, the second host is never reached |
| Transport.AnnouncedOnceIff | pyxmpp2/transport.py:760-786 | a run never moves on by a hang-up or error while a connection job is queued, if and only if at every point of it, and of every continuation that does not either, the stream was told of at most one connection |
| Transport.LeftJobAnnouncesTwice | pyxmpp2/transport.py:760-786 | from any state where a job is left behind, two more steps tell the stream twice |
| Transport.TidyAnnouncesOnce | pyxmpp2/transport.py:369-409 | while no job is left behind there is at most one job and one announcement |
| Transport.TCPTransport.ConnectTo | pyxmpp2/transport.py:228-259 | which of the three phases a search begins in, and the two errors |
| Transport.TCPTransport.GotSrvAnswer | pyxmpp2/transport.py:270-294 | targets from the answer, the fallback, or abort with an error |
| Transport.TCPTransport.ResolveNext | pyxmpp2/transport.py:296-331 | the first name is taken off the list; its addresses, the next name, or abort |
| Transport.TCPTransport.BeginConnect | pyxmpp2/transport.py:333-367 | the first address is taken off the list; each outcome of connect() |
| Transport.TCPTransport.HasConnected | pyxmpp2/transport.py:369-381 | the stream is told once and the state changes |
| Transport.TCPTransport.ContinueConnecting | pyxmpp2/transport.py:383-409 | each outcome of the second connect() |
| Transport.TCPTransport.PrepareNext | pyxmpp2/transport.py:529-553 | the step for each state and what prepare() returns; the lists are never empty where an element is taken |
| Transport.TCPTransport.HandleWrite | pyxmpp2/transport.py:610-624 | one job is taken, and continues the connection if there is a socket |
| Transport.TCPTransport.HandleHup | pyxmpp2/transport.py:760-770 | the next address, or only the flag |
| Transport.TCPTransport.HandleErr | pyxmpp2/transport.py:772-786 | the next address, or abort |
| DigestMd5.UnquoteQuote | pyxmpp2/sasl/digest_md5.py:43-76 | _unquote undoes quoting by _quote exactly for strings without a backslash directly before a backslash or quote |
| DigestMd5.UnquoteOther | pyxmpp2/sasl/digest_md5.py:43-57 | what is not between quotes is left as it is |
| DigestMd5.DropQuoted | pyxmpp2/sasl/digest_md5.py:39 | unquoting what was quoted never loses a character, and gains one exactly for the other strings |
| DigestMd5.ParseParams | pyxmpp2/sasl/digest_md5.py:259-265 | the parameter loop ends and gives the parameters in order, or a syntax error |
| DigestMd5.ParamsOfJoin | pyxmpp2/sasl/digest_md5.py:40-41 | the loop recovers exactly the comma-joined list of names and raw values, even with commas and escaped quotes inside |
| DigestMd5.EmptyQuotedRefused | pyxmpp2/sasl/digest_md5.py:40-41 | an empty quoted value is a syntax error |
| DigestMd5.QuotedParamRoundTrip | pyxmpp2/sasl/digest_md5.py:61-76 | a value without line feeds that is sent quoted is parsed if and only if it is not empty; it reads back as itself exactly when unambiguous |
| Stringprep.CacheIsTransparent | pyxmpp2/xmppstringprep.py:101-135 | after any run of calls on any profiles and any size changes, prepare equals the uncached pipeline |
| Stringprep.RunKeepsCoherent | pyxmpp2/xmppstringprep.py:112-135 | the shared list holds exactly the cached keys, once each, and the cached texts are right |
| Stringprep.RunKeepsBound | pyxmpp2/xmppstringprep.py:237-253 | with sizes of at least 2 the list never outgrows the size in force |
| Stringprep.BoundNeedsTwo | pyxmpp2/xmppstringprep.py:124-135 | 2 is needed: preparing one more string keeps the bound exactly at sizes of at least 2 |
| Stringprep.PipelineIs | pyxmpp2/xmppstringprep.py:101-135 | a profile prepares a string to the normalization of its characters replaced one by one, exactly if that has no prohibited and no unassigned character and, with bidi, one direction by section 6 of RFC 3454 |
| Stringprep.PrepareKeeps | pyxmpp2/xmppstringprep.py:124-135 | a new string becomes the newest in the list, of which a full one keeps only the newer half |
| Stringprep.SetSizeKeeps | pyxmpp2/xmppstringprep.py:237-253 | a new size drops the oldest, as many as are too many |
| Stringprep.PreparedAvoidsProhibited | pyxmpp2/xmppstringprep.py:173-180 | a prepared string has no prohibited character |
| Stringprep.CheckBidi | pyxmpp2/xmppstringprep.py:191-207 | the loop decides the bidirectional requirement of section 6 of RFC 3454 |
| Stringprep.MappedAway | pyxmpp2/xmppstringprep.py:158-171 | a string of one character that is mapped to nothing is prepared to the empty string |
| Stringprep.MapChars | pyxmpp2/xmppstringprep.py:158-171 | each character mapped by the first table that knows it |
| Stringprep.CheckParts | pyxmpp2/xmppstringprep.py:173-189 | on a list the checking loops refuse the first part in the table, and raise for a part that is no single character |
| Stringprep.FindsAny | pyxmpp2/xmppstringprep.py:173-189 | the checking loops refuse exactly strings with a character of the table |
| Stringprep.RunPipeline | pyxmpp2/xmppstringprep.py:115-123 | the steps in order, with refusal or exception; a prepared string has no prohibited or unassigned character |
| Stringprep.RunUnnormalized | pyxmpp2/xmppstringprep.py:115-123 | without normalization the checks run first and may refuse; nothing is ever prepared |
| Stringprep.ProfileCache.Evict | pyxmpp2/xmppstringprep.py:124-133 | the eviction loop drops exactly the items before the slice bound |
| Stringprep.ProfileCache.PrepareText | pyxmpp2/xmppstringprep.py:101-135 | the result is the pipeline's, the cache stays coherent and within its bound |
| Stringprep.ProfileCache.SetCacheSize | pyxmpp2/xmppstringprep.py:237-253 | the oldest go, with their texts, until the new size holds |
| Resolver.PickIsUnique | pyxmpp2/resolver.py:91-95 | a threshold picks at most one record |
| Resolver.Pick | pyxmpp2/resolver.py:85-95 | each draw picks the record whose stretch of the running total holds it |
| Resolver.DrawTakesIff | pyxmpp2/resolver.py:85-95 | a draw takes a record exactly if it falls into its share of the sum of weights, a tenth more each |
| Resolver.ShuffleIsDrawn | pyxmpp2/resolver.py:71-97 | the order is that in which the draws take records |
| Resolver.EveryRecordCanBePicked | pyxmpp2/resolver.py:85-95 | no record is starved, even with weight 0 |
| Resolver.ShuffleIsPermutation | pyxmpp2/resolver.py:71-97 | shuffling loses and repeats nothing |
| Resolver.PickRecord | pyxmpp2/resolver.py:90-95 | the pick loop always ends with a pick |
| Resolver.WeightSum | pyxmpp2/resolver.py:85-87 | the sum of weights, a tenth more each |
| Resolver.GroupServed | pyxmpp2/resolver.py:113-120 | once a group is put out, its priority is served in the drawn order and the earlier ones stay so |
| Resolver.ShuffleSrv | pyxmpp2/resolver.py:71-97 | one record moves per pass until one is left; the order is the drawn one |
| Resolver.ReorderSrv | pyxmpp2/resolver.py:99-121 | for any outcome of the sort: a permutation with priorities non-decreasing, and each priority in the order drawn for its own group |
| Scheduler.InsertSorts | pyxmpp2/mainloop/base.py:116 | adding and sorting keeps the list sorted |
| Scheduler.PassIs | pyxmpp2/mainloop/base.py:140-154 | a pass leaves the others, what was added, and the handler called, after its interval if it recurs or after what it returned |
| Scheduler.ComesAgain | pyxmpp2/mainloop/base.py:143-149 | a handler that recurs is there again, one interval from now |
| Scheduler.RescheduledLater | pyxmpp2/mainloop/base.py:143-154 | handlers put back or added, if later, are never due again in the same call |
| Scheduler.PendingStep | pyxmpp2/mainloop/base.py:134-157 | putting back a called handler, and what it adds, does not disturb the due ones still waiting in front |
| Scheduler.LoopAdvances | pyxmpp2/mainloop/base.py:134-159 | if what the calls put back and add comes later, the loop ends, and the handlers due at entry are called exactly once each in schedule order, all or up to the first followed by QUIT |
| Scheduler.LoopSorts | pyxmpp2/mainloop/base.py:134-159 | whatever the intervals, the list stays sorted, and a loop that ends without QUIT leaves nothing due |
| Scheduler.RelentlessNeverEnds | pyxmpp2/mainloop/base.py:143-148 | with a due handler that recurs at intervals of 0 or less the loop never ends without QUIT, whatever the other handlers do |
| Scheduler.EndsIff | pyxmpp2/mainloop/base.py:134-159 | it can end without QUIT if and only if there is no such handler |
| Scheduler.MainLoopBase.AddTimeoutHandler | pyxmpp2/mainloop/base.py:107-116 | every handler method is scheduled once, the list stays sorted |
| Scheduler.MainLoopBase.CallFirst | pyxmpp2/mainloop/base.py:140-154 | one pass: the first handler called, what it adds, and the handler if it recurs |
| Scheduler.MainLoopBase.CallDue | pyxmpp2/mainloop/base.py:134-159 | whenever the handlers behave so that the loop ends, it calls and leaves what the function the theorems are about says |
| Scheduler.MainLoopBase.CallTimeoutHandlers | pyxmpp2/mainloop/base.py:124-164 | the same; the list stays sorted, without QUIT nothing due is left, and the result is 0 after QUIT, else the time to the earliest entry, or None if there is none or its schedule is 0 |

## Left out

- Meaning.EmitMeaning: about tags, names, attribute values and text as values; the escaping of characters by the standard library is not modelled.
- XmppSerializer.XMPPSerializer.EmitStanza: control characters in names and namespaces, where XML does not allow them either, are not replaced.
- ScramAuthenticators.SCRAMClientAuthenticator.ChooseBinding: the order of the dictionary's keys is an input.
- Scheduler.MainLoopBase.CallTimeoutHandlers: what the handlers return and add and whether QUIT is met after a call are inputs, such that the loop ends; handlers removed by callbacks are left out, and the clock is read once.
- Resolver.ReorderSrv: exact arithmetic instead of floating point; the result of the sort is any sorted permutation, given as an input; equal records count as distinct, since `remove` takes the first equal one, which looks the same.
- Stringprep.RunPipeline: tables, NFKC and the mapping functions are parameters; a table asked about anything but one character raises, though a few of the standard library's would answer; the profiles' separate caches are one map keyed by profile and string.
- Absent prefixes and absent text are the empty string; the code only asks whether they are true.
- Attributes are a list in the order of `items()`; declarations are a map, as their order means nothing.
- The SCRAM patterns are character classes and concatenation, as in `ScramPatterns`; `PARAM_RE` is written as the deterministic parser it amounts to.
- Hash, HMAC, SASLprep and base64 are parameters with the laws of fixed length and decoding after encoding; UTF-8 coding and its errors are left out, byte strings being strings.
- IDNA, stringprep results and domain comparison are parameters of the JID model, with idempotence and the characters they let through; IP address literals are not told apart.
- JID objects made with `check=False` are part of the cache runs only through `bare`, its one use there.
- The serial numbers of IQ registrations are the model's own; what handlers return and what is sent in reply is left out; handlers are taken not to raise or re-enter, and each locked method is one step; clock readings are inputs.
- JIDs in rosters are compared by value and parsed without the JID cache, whose effect `Jid` has; the writing and parsing of the roster file, and events other than those named, are left out.
- Whitespace added by saving is a function on elements and has no loop in the model.
- The connection search has a resolver that answers before returning, and its runs begin with a new transport; `closing`, `closed` and TLS states, `handle_nval`, the events put in the queue and the socket itself are left out, and the write queue holds only connection jobs.
- Client and server stream negotiation, binding, sessions and StartTLS: event and I/O plumbing.
- Sockets, TLS, select, poll, glib and tornado loops, threads, locks and logging: foreign calls.
- `cache.py` and the extension modules that raise ImportError when imported: none of that code is reachable.
- DIGEST-MD5 beyond quoting and parameter lists: realm and digest-uri special cases.
- Stanza classes, error elements, presence and message routing, settings, certificates, and the module-level `serialize` helper: mostly wrappers.
