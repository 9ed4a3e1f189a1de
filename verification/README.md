# Aries protocols, DID parsing and key codecs: a verified model

This project models the parts of an Aries agent framework where a mistake is
hardest to see, and proves what they promise:

- onion-routed envelopes and the mediator that peels, queues and delivers them;
- the DID and DID URL parser, whose byte ranges are recomputed by arithmetic
  after the combinators have run;
- the key codecs: unsigned varint, base58, base64url, multicodec fingerprints,
  did:key, did:jwk, abbreviated verkeys, signed connection responses;
- publication of revocation registries and of local revocations under failures;
- the encoding of credential values and its agreement with the offered preview;
- routing of ledger reads through nested aggregates, and the response cache;
- record tags, the protocol version registry and the message relay.

`dafny verify dfyconfig.toml` checks everything. Every module can be read on its
own; the order from the ground up is `Wrappers`, `Positional`, `Base58`,
`Base64Url`, `Varint`, `Keys`; `DidGrammar`, `UrlGrammar`, `DidUrls`, `DidLanguage`, `DidKeys`;
`JsonText`, `Signing`, `Envelope`, `MediatorStore`, `Mediator`, `MediatorRuns`,
`MediatorReplies`, `MediatorEndToEnd`;
`StatusList`, `Revocation`; `CredentialValues`; `LedgerRouting`, `LedgerCache`;
`RecordTags`, `TagText`, `VersionRegistry`, `Relay`.

Code that changes state is a class whose methods are proved against a
specification function of the old state; the theorems about whole runs are about
those functions. Failures of the ledger, the wallet, the store and the cache are
parameters of each call, so every theorem about runs is about every pattern of
failures. Packing is symbolic: `Packed(sender, to, payload)` can be opened only
by a wallet that holds `to`. Strings stand for UTF-8 text with one `char` per
byte.

The code is followed where its own comments are looser: path segments, queries
and fragments are non-empty when present (did_core/did_parser_nom/src/did_url/parsing.rs:51-91),
although the quoted grammar allows them to be empty.

Where a promise turned out not to hold of the code, the code is kept as it is
and the exact condition is proved:

| promise | holds exactly when | shown by |
|---|---|---|
| the ranges of a parsed DID URL lie where the parsed parts lie | the text is not `did:web:` directly followed by a URL part (then every range is 8 bytes too low) | `DidUrls.RangesAreTrue`, `DidUrls.WebWithoutIdExample` |
| a printed DID URL is accepted | it is not a `did:sov` DID followed by a URL part with a colon | `DidUrls.DidUrlRoundTrip`, `DidLanguage.SovColonExample` |
| a DID survives the conversion to a DID URL and back | it has no namespace | `DidUrls.OfDidRoundTrip`, `DidLanguage.NamespaceIsLost` |
| `Key::new` strips only the canonical prefix of its type | the bytes do not start with a ten-byte overlong form of the code | `Keys.NewStripsExactly`, `Keys.NewStripsOverlong` |
| a delivery holds at most `limit` messages | `limit` is not zero | `MediatorRuns.DeliveryIsGenuine`, `MediatorRuns.ZeroLimitDeliversOne` |
| an envelope made with a grant's routing keys is queued as the packed message for the account that registered its key | the mediator has no upstream routing keys (otherwise its own layer names an upstream hop) | `MediatorEndToEnd.ForwardIsQueued` |
| a queued message is in the account's delivery | the limit (at least one) exceeds the number of messages that were waiting before it, and, if only messages for its key are asked for, the account has not removed that key since; messages are never taken off the queue, so a message that the limit does not reach stays out of every later delivery with that limit | `MediatorEndToEnd.EndToEnd` |
| a delta's status list marks exactly the revoked ids | a bit lands on every id and on nothing else, which can be read off the ids; for distinct ids, they are in ascending order, because `insert` moves later bits to the right | `StatusList.StatusListIsExact`, `StatusList.DescendingMisplaces`, `StatusList.RepeatedIds` |
| revoking any one id makes only that id pending | the ledger's answer lists the revoked ids in strictly ascending order | `Revocation.SafeAnswer`, `Revocation.FalselyRevokes` |
| what the preview accepts can be encoded | the JSON is an array or an object | `CredentialValues.AcceptanceGap`, `CredentialValues.ScalarExample` |
| record tags written as JSON are read back | no key and no value holds a character that JSON escapes, because the reader takes slices of the text | `TagText.TextRoundTrip`, `TagText.QuotedWordIsRefused` |
| version resolution finds the greatest registered minor | a greater minor inserted before a smaller one is inserted again after it | `VersionRegistry.SearchIsGreatest`, `VersionRegistry.DescendingResolvesDown` |

## Model

| member | source | states |
|---|---|---|
| `Envelope.WrapIntoForwardMessages` | aries/aries_vcx/src/utils/encryption_envelope.rs:145-168 | the loop yields the nested Forward layers of `Wrap`, packs one anonymous layer per routing key in order, and fails when a pack fails |
| `Envelope.CreateFromKeys` | aries/aries_vcx/src/utils/encryption_envelope.rs:98-143 | an envelope is made if and only if all keys are Ed25519 and the wallet packs for the recipient, from the sender or from nobody, and anonymously for every hop; a wrong key type is reported exactly when there is one, and then nothing was packed; otherwise first the authenticated pack, then the layers |
| `Envelope.WrapLast` | aries/aries_vcx/src/utils/encryption_envelope.rs:145-194 | the outermost layer is anonymous, for the last routing key, and its `to` names the hop before it |
| `Envelope.PeelWrap` | aries/aries_vcx/src/utils/encryption_envelope.rs:145-194 | a chain of wallets peels a wrapped message if and only if they hold the routing keys in reverse order; they see exactly the next hops and end with exactly the inner pack |
| `Envelope.UnpackOpens` | aries/aries_vcx/src/utils/encryption_envelope.rs:235-276 | opening returns data, sender and recipient; it fails exactly without the key or when the expected sender is not the real one |
| `Envelope.EnvelopeReachesRecipient` | aries/aries_vcx/src/utils/encryption_envelope.rs:98-276 | whenever keys and wallet allow, with or without a sender, an envelope is made, every hop peels its layer and the recipient opens the original data and sender |
| `MediatorStore.Store.AddRecipientRow` | aries/agents/mediator/src/persistence/database/mysql.rs:318-351 | succeeds exactly when the account exists and nobody has the key; then the account lists one more key, last, and no other list and no message has changed; otherwise nothing has |
| `MediatorStore.Store.RemoveRecipientRow` | aries/agents/mediator/src/persistence/database/mysql.rs:352-387 | the account does not list the key any more, other lists are as before, and exactly its messages for that key lose the key and nothing else |
| `MediatorStore.Store.PersistForwardMessage` | aries/agents/mediator/src/persistence/database/mysql.rs:178-220 | succeeds exactly when some account lists the key; then that account's queue has the message at its end, for no filter and for that key, and every other queue is as before; otherwise nothing has changed |
| `MediatorStore.Store.RetrievePendingMessages` | aries/agents/mediator/src/persistence/database/mysql.rs:267-317 | the row loop returns the first pending rows in order of insertion, testing the limit after a row is taken |
| `MediatorStore.Store.RetrievePendingMessageCount` | aries/agents/mediator/src/persistence/database/mysql.rs:221-266 | the number of places in the queue that match the account and the filter |
| `MediatorStore.Store.ListRecipientKeys` | aries/agents/mediator/src/persistence/database/mysql.rs:388-420 | exactly the keys registered for the account, once each, rows being read in order of insertion |
| `MediatorStore.Store.CreateAccountRow` | aries/agents/mediator/src/persistence/database/mysql.rs:42-76 | opens one new account and changes nothing else; reports success exactly when the account was new and neither statement failed; a failed read-back leaves the account there |
| `MediatorStore.RemoveInv` | aries/agents/mediator/src/persistence/database/mysql.rs:352-387 | removal keeps unique keys, foreign keys and message numbering |
| `MediatorStore.PersistInv` | aries/agents/mediator/src/persistence/database/mysql.rs:178-220 | storing a forward keeps them too |
| `MediatorStore.UpdateExtends` | aries/agents/mediator/src/persistence/database/mysql.rs:318-387 | no key update loses, moves or alters a queued message |
| `Mediator.Agent.HandleKeylistUpdate` | aries/agents/mediator/src/mediation/coordination.rs:101-137 | the loop applies every update in order to the store and answers each |
| `Mediator.Agent.HandleForward` | aries/agents/mediator/src/mediation/forward.rs:18-49 | one stored message per call, and an acknowledgement that says OK whether or not it was stored |
| `Mediator.Agent.HandlePickupStatus` | aries/agents/mediator/src/mediation/pickup.rs:45-73 | the count asked for, or a panic when the store fails |
| `Mediator.Agent.HandlePickup` | aries/agents/mediator/src/mediation/pickup.rs:18-146 | delivery when something is pending, status otherwise and by default |
| `Mediator.Agent.HandleCoordinate` | aries/agents/mediator/src/didcomm_handlers/mediator_coord.rs:9-46 | grant with routing keys followed by the own recipient key; updates and queries; refusals |
| `Mediator.Agent.HandleConnectionRequest` | aries/agents/mediator/src/aries_agent/mod.rs:162-217 | a fresh key, a packed response, then the account; every failing branch |
| `Mediator.Agent.ResetService` | aries/agents/mediator/src/aries_agent/mod.rs:86-103 | the service gets the key just made as its only recipient key, and the wallet holds it |
| `Mediator.Agent.HandleAries` | aries/agents/mediator/src/didcomm_handlers/mod.rs:30-87 | the whole dispatcher: unpack, branch, authenticate, answer, pack |
| `MediatorRuns.ReplyAt` | aries/agents/mediator/src/mediation/coordination.rs:101-137 | one reply item per update in order, Success exactly when the store call succeeded |
| `MediatorRuns.KeylistUpdateFolds` | aries/agents/mediator/src/mediation/coordination.rs:101-137 | the account's key list is the fold of the updates marked successful, every other account's is unchanged |
| `MediatorRuns.QueryAfterUpdate` | aries/agents/mediator/src/mediation/coordination.rs:74-137 | a following query returns exactly that list, rows being read in order of insertion |
| `MediatorRuns.AccountsIsolated` | aries/agents/mediator/src/didcomm_handlers/mod.rs:30-87 | no request of one account changes the keys or the queue of another |
| `MediatorRuns.StatusCounts` | aries/agents/mediator/src/mediation/pickup.rs:45-73 | the status count is the number of positions in the queue that match |
| `MediatorRuns.DeliveryIsGenuine` | aries/agents/mediator/src/mediation/pickup.rs:75-120 | only the account's own messages, unchanged under base64url, at most `limit` if and only if `limit` is positive |
| `MediatorRuns.ZeroLimitDeliversOne` | aries/agents/mediator/src/persistence/database/mysql.rs:267-317 | a limit of zero delivers one message |
| `MediatorRuns.StepKeeps` | aries/agents/mediator/src/didcomm_handlers/mod.rs:30-87 | every request keeps the table rules and every queued message; exactly a stored forward adds exactly its row |
| `MediatorRuns.RunKeeps` | aries/agents/mediator/src/didcomm_handlers/mod.rs:30-87 | over every run nothing queued is lost or altered and the queue grows by the number of stored forwards |
| `MediatorRuns.RunProvenance` | aries/agents/mediator/src/mediation/forward.rs:18-49 | every message found in a queue was there before or came from one forward, for the owner of the key at that time |
| `MediatorEndToEnd.ForwardIsQueued` | aries/agents/mediator/src/mediation/forward.rs:18-49 | an envelope made with the granted routing keys is queued for the owner of the hop the mediator's layer names, if any; that is the exact inner pack for the account that registered its key if and only if there are no upstream routing keys |
| `MediatorEndToEnd.EndToEnd` | aries/agents/mediator/src/mediation/pickup.rs:75-120 | from the grant to the delivery: an account reads routing keys in the reply to its packed mediate request; a message packed with them for the key it registered is, after any run in between, in the reply to its packed delivery request exactly when it is due (for all messages or for one key, rows being read in order of insertion); it unpacks to the same data and authenticates exactly the real sender |
| `MediatorEndToEnd.GrantRoute` | aries/agents/mediator/src/didcomm_handlers/mediator_coord.rs:9-38 | what the account reads in the reply is that grant and no other, and its keys read as the upstream routing keys followed by the mediator's own |
| `MediatorEndToEnd.DeliveredOpens` | aries/aries_vcx/src/utils/encryption_envelope.rs:235-276 | any queued pack is in the delivery exactly when it matches the filter and its turn has come, and opens there |
| `MediatorReplies.AnswerReaches` | aries/agents/mediator/src/aries_agent/mod.rs:131-160 | the packed answer reaches the account through its routing hops and opens to exactly the answer |
| `MediatorReplies.AnsweredIffCan` | aries/agents/mediator/src/aries_agent/mod.rs:131-160 | an account gets a packed answer exactly when its keys can be read and the wallet packs for them |
| `MediatorEndToEnd.KeyFate` | aries/agents/mediator/src/persistence/database/mysql.rs:352-387 | over any run a queued message carries its key exactly as long as its own account has not removed that key |
| `MediatorEndToEnd.TurnIsKept` | aries/agents/mediator/src/persistence/database/mysql.rs:267-317 | the number of messages before it, for all or for its key, is the same after any run as when it was queued |
| `MediatorReplies.ConnectOpensAccount` | aries/agents/mediator/src/aries_agent/mod.rs:162-217 | a connection request that can be answered opens exactly one new account and changes nothing else but the wallet; the reply reaches the sender and opens to the connection response naming the new key; no later request changes that account |
| `MediatorReplies.ConnectedIffCan` | aries/agents/mediator/src/aries_agent/mod.rs:162-217 | a connection request is answered if and only if the keys on both sides can be read, the wallet packs, the account is new and nothing fails |
| `MediatorReplies.MediateRequestIsGranted` | aries/agents/mediator/src/didcomm_handlers/mediator_coord.rs:9-38 | a packed mediate request is answered with the service's endpoint and its routing keys followed by its own key |
| `MediatorReplies.KeylistUpdateIsAnswered` | aries/agents/mediator/src/mediation/coordination.rs:101-137 | a packed batch is answered item by item, and the stored lists are what the answer says |
| `MediatorReplies.SuccessMeans` | aries/agents/mediator/src/persistence/database/mysql.rs:318-387 | an update succeeds exactly without a fault and, to be added, when nobody has the key yet |
| `MediatorReplies.KeylistQueryIsAnswered` | aries/agents/mediator/src/mediation/coordination.rs:74-99 | a packed query is answered with exactly the account's keys, once each |
| `MediatorReplies.StatusIsAnswered` | aries/agents/mediator/src/mediation/pickup.rs:18-146 | a status request is answered with the number of messages it is about; every other pickup message that delivers nothing with the number of all the account's messages |
| `MediatorReplies.DeliveryIsAnswered` | aries/agents/mediator/src/mediation/pickup.rs:75-120 | a delivery request is answered with as many matching messages as the limit allows, naming its key |
| `MediatorReplies.Refused` | aries/agents/mediator/src/didcomm_handlers/mod.rs:30-87 | messages that cannot be opened or read, unknown or anonymous senders and other protocols change nothing and are refused |
| `MediatorReplies.StoreFaultPanics` | aries/agents/mediator/src/mediation/coordination.rs:40-42 | store failures while answering and unimplemented coordination messages end in a panic that changes nothing |
| `DidGrammar.PrefixRanges` | did_core/did_parser_nom/src/did/parsing/mod.rs:29-77 | the ranges of a parsed DID are in order, separated by colons, free of delimiters, and the id ends where parsing stopped, unless it is `did:web:` without an id |
| `DidGrammar.PrefixLocal` | did_core/did_parser_nom/src/did/parsing/mod.rs:67-77 | what follows a delimiter does not influence how the DID before it is read |
| `DidGrammar.SovRejectsColons` | did_core/did_parser_nom/src/did/parsing/did_sov.rs:19-54 | a colon anywhere in the URL part after a did:sov DID makes the parse fail |
| `DidGrammar.WebWithoutIdIsAccepted` | did_core/did_parser_nom/src/did/parsing/did_web.rs:11-25 | `did:web:` is accepted without an id range |
| `DidGrammar.RelativeHasNoPrefix` | did_core/did_parser_nom/src/did_url/parsing.rs:93-99 | a relative reference has no DID in front |
| `DidLanguage.DidAccepted` | did_core/did_parser_nom/src/did/parsing/mod.rs:29-97 | every text of the DID language, method by method, is accepted with its method, namespace and id where they stand |
| `DidLanguage.DidsAreTheLanguage` | did_core/did_parser_nom/src/did/parsing/mod.rs:67-97 | a text is accepted as a DID if and only if it is in the language |
| `DidLanguage.GeneralIdIs` | did_core/did_parser_nom/src/did/parsing/did_core.rs:37-83 | the id parser takes a whole text exactly when it consists of id characters and colons and does not end in a colon |
| `DidLanguage.PeerAccepts` | did_core/did_parser_nom/src/did/parsing/did_peer_4.rs:12-24 | did:peer:4 and any id that starts with 4 |
| `DidLanguage.WebAccepts` | did_core/did_parser_nom/src/did/parsing/did_web.rs:11-25 | did:web and any non-empty text without delimiters |
| `DidLanguage.GenericAccepts` | did_core/did_parser_nom/src/did/parsing/did_core.rs:85-90 | any other method of small letters and digits, and any id |
| `DidLanguage.SovAccepts` | did_core/did_parser_nom/src/did/parsing/did_sov.rs:19-54 | did:sov with or without a namespace, and 21 or 22 base58 characters |
| `DidLanguage.CheqdAccepts` | did_core/did_parser_nom/src/did/parsing/did_cheqd.rs:16-68 | did:cheqd with a namespace, and a base58 id or a UUID |
| `DidLanguage.BareAccepts` | did_core/did_parser_nom/src/did/parsing/mod.rs:75-75 | 21 or 22 base58 characters by themselves |
| `DidLanguage.DidUrlsAreTheLanguage` | did_core/did_parser_nom/src/did_url/parsing.rs:93-182 | a text is accepted as a DID URL if and only if it is a DID or nothing, followed by a well-formed URL part, with the did:web and did:sov exceptions |
| `UrlGrammar.PartComplete` | did_core/did_parser_nom/src/did_url/parsing.rs:40-107 | printing any well-formed path, pairs and fragment and parsing returns exactly those parts |
| `UrlGrammar.PartSound` | did_core/did_parser_nom/src/did_url/parsing.rs:40-107 | whatever is accepted is the print of a well-formed URL part with those parts |
| `UrlGrammar.CharacterSets` | did_core/did_parser_nom/src/did_url/parsing.rs:21-79 | the characters of segments, keys, values, queries and fragments, written out |
| `UrlGrammar.PathComplete` | did_core/did_parser_nom/src/did_url/parsing.rs:51-59 | non-empty segments are read in full and no further |
| `UrlGrammar.PairsComplete` | did_core/did_parser_nom/src/did_url/parsing.rs:70-91 | pairs separated by `&` or `?` are read one for one |
| `DidUrls.ToDidUrlRanges` | did_core/did_parser_nom/src/did_url/parsing.rs:109-147 | the loop with its running position computes the ranges given position by position |
| `DidUrls.Parse` | did_core/did_parser_nom/src/did_url/parsing.rs:158-182 | the method combines prefix, URL part, ranges and emptiness check; which texts it accepts is `DidLanguage.DidUrlsAreTheLanguage` |
| `DidUrls.QueryMapSize` | did_core/did_parser_nom/src/did_url/parsing.rs:131-139 | no query pair is lost in the range-keyed map |
| `DidUrls.RangesOfFaithful` | did_core/did_parser_nom/src/did_url/parsing.rs:109-147 | ranges from the true start slice the text to the parsed path, keys, values and fragment, in bounds, ordered and disjoint |
| `DidUrls.FaithfulFixes` | did_core/did_parser_nom/src/did_url/parsing.rs:109-147 | no other ranges are faithful |
| `DidUrls.RangesAreTrue` | did_core/did_parser_nom/src/did_url/parsing.rs:101-182 | for every accepted text the reported ranges are faithful if and only if it is not `did:web:` followed by a URL part |
| `DidUrls.WebWithoutIdMisreports` | did_core/did_parser_nom/src/did_url/parsing.rs:117-124 | after `did:web:` without an id no path is reported as written |
| `DidUrls.WebWithoutIdExample` | did_core/did_parser_nom/src/did_url/parsing.rs:117-124 | the path of `did:web:/p` is reported as `di` |
| `DidUrls.FromFragmentIsParse` | did_core/did_parser_nom/src/did_url/mod.rs:76-91 | `from_fragment(f)` succeeds exactly when parsing `#f` does, with the same value |
| `DidUrls.ToDidKeepsText` | did_core/did_parser_nom/src/did_url/mod.rs:161-172 | conversion to a DID keeps method, namespace and id text |
| `DidUrls.OfDidRoundTrip` | did_core/did_parser_nom/src/did/mod.rs:121-126 | DID to DID URL and back is the identity if and only if there is no namespace |
| `DidLanguage.NamespaceIsLost` | did_core/did_parser_nom/src/did/mod.rs:121-126 | a did:cheqd DID whose namespace is lost |
| `DidUrls.DidUrlRoundTrip` | did_core/did_parser_nom/src/did_url/parsing.rs:31-182 | a printed DID URL is accepted if and only if it is not did:sov with a later colon, and then gives back its parts |
| `DidLanguage.SovColonExample` | did_core/did_parser_nom/src/did/parsing/did_sov.rs:19-54 | a did:sov DID and a path that are each accepted, but not together |
| `Positional.RespellInverse` | did_core/public_key/src/key.rs:58-60 | re-spelling a number between bases and back is the identity, leading zeros included |
| `Base58.DecodeEncode` | did_core/public_key/src/key.rs:58-60 | every byte string is read back from its base58 |
| `Base58.EncodeDecode` | did_core/public_key/src/key.rs:75-81 | and every base58 text is the text of the bytes it denotes |
| `Base58.Alphabet` | did_core/public_key/src/key.rs:58-60 | the symbols are the ASCII digits and letters without 0, O, I and l, in ASCII order |
| `Base58.EncodeExample` | did_core/public_key/src/key.rs:58-60 | the bytes 0, 0, 1, 2 are 115T |
| `Base64Url.DecodeEncodePadded` | aries/aries_vcx/src/utils/base64.rs:8-16 | every encoding is read back with any part of its padding |
| `Base64Url.DecodeAccepts` | aries/aries_vcx/src/utils/base64.rs:8-16 | and nothing else is read |
| `Base64Url.Alphabet` | aries/aries_vcx/src/utils/base64.rs:8-16 | the order of the URL-safe alphabet |
| `Base64Url.GroupBits` | aries/aries_vcx/src/utils/base64.rs:8-16 | every group of symbols is the bits of its bytes, high ones first (section 4 of RFC 4648) |
| `Varint.DecodeEncode` | did_core/public_key/src/key.rs:41-48 | every 64-bit value is read back, with the bytes after it |
| `Varint.DecodesToCode` | did_core/public_key/src/key.rs:90-100 | exactly which inputs read as a given two-byte code: its canonical form or the ten-byte overlong one |
| `Varint.EncodeExamples` | did_core/public_key/src/key.rs:41-48 | the examples of the unsigned-varint description |
| `Keys.TypeOfCode` | did_core/public_key/src/key_type.rs:31-62 | the two code tables are inverse to each other and reject every other code |
| `Keys.MulticodecBytes` | did_core/public_key/src/key_type.rs:31-44 | the two prefix bytes of each of the eight key types |
| `Keys.FromBase58Unique` | did_core/public_key/src/key.rs:75-81 | a text read as a key of a type is exactly that key's base58 |
| `Keys.FingerprintRoundTrip` | did_core/public_key/src/key.rs:41-73 | every key of every type and length is recovered from its fingerprint |
| `Keys.FromFingerprintExactly` | did_core/public_key/src/key.rs:66-73 | a base58 fingerprint reads as a key exactly if it is that key's, or spells its code in the overlong way |
| `Keys.FingerprintInjective` | did_core/public_key/src/key.rs:50-52 | no two keys share a fingerprint |
| `Keys.NewStripsExactly` | did_core/public_key/src/key.rs:16-21 | which prefix `Key::new` removes, and that it changes nothing exactly when neither form is there |
| `Keys.NewOfPrefixed` | did_core/public_key/src/key.rs:90-100 | stripping undoes prefixing, once |
| `Keys.NewStripsOverlong` | did_core/public_key/src/key.rs:90-100 | an input whose ten-byte prefix is removed |
| `DidKeys.DidKeyRoundTrip` | did_core/did_methods/did_key/src/lib.rs:20-47 | every key has a did:key, which parses back to the same key and DID |
| `DidKeys.DidJwkRoundTrip` | did_core/did_methods/did_jwk/src/lib.rs:68-91 | every web key has a did:jwk, which decodes to the same web key and DID |
| `DidKeys.DidJwkText` | did_core/did_methods/did_jwk/src/lib.rs:68-91 | the DID spells the JSON of the web key; only such texts decode |
| `DidKeys.DidJwkOfKey` | did_core/did_methods/did_jwk/src/lib.rs:93-117 | the wallet's web key with its use inserted: enc for X25519, sig for every other type |
| `DidKeys.NormalizeKeysAsNaked` | aries/aries_vcx/src/protocols/oob/mod.rs:100-140 | order and length kept, success exactly when every key is acceptable, otherwise the first bad key's error |
| `DidKeys.NakedKeyIdempotent` | aries/aries_vcx/src/protocols/oob/mod.rs:100-140 | a normalised key is left alone by a second pass |
| `DidKeys.NormalizedStaysNormalized` | aries/aries_vcx/src/protocols/oob/mod.rs:100-140 | and so is a normalised list |
| `DidKeys.NakedDidKey` | aries/aries_vcx/src/protocols/oob/mod.rs:100-140 | the did:key of a key is accepted exactly for Ed25519 and becomes the base58 of the key its fingerprint denotes |
| `DidKeys.NakedKeyExactly` | aries/aries_vcx/src/protocols/oob/mod.rs:100-140 | what becomes of every kind of key text, and which error it meets |
| `DidKeys.ExpandAbbreviatedVerkey` | aries/aries_vcx/src/common/keys.rs:110-133 | the method with its in-place extension computes the expansion, errors included |
| `DidKeys.ExpandSplit` | aries/aries_vcx/src/common/keys.rs:110-133 | cutting a verkey's bytes anywhere, abbreviating and expanding gives the verkey |
| `DidKeys.ExpandIdempotent` | aries/aries_vcx/src/common/keys.rs:110-133 | expanding twice changes nothing |
| `DidKeys.ExpandExactly` | aries/aries_vcx/src/common/keys.rs:110-133 | only a tilde asks for expansion, and then both texts must be base58 |
| `Signing.SignThenDecode` | aries/aries_vcx/src/common/signing.rs:22-98 | signing then decoding returns the data, padded or not, for any wallet that accepts its own signatures |
| `Signing.SignsExactly` | aries/aries_vcx/src/common/signing.rs:22-52 | signing succeeds exactly when key text and wallet allow; signed and sent are the time in eight bytes, the highest first, and the JSON text |
| `Signing.VerifiedIsDecoded` | aries/aries_vcx/src/common/signing.rs:54-98 | whatever the wallet accepts under the signer's verkey is decoded |
| `Signing.Refusals` | aries/aries_vcx/src/common/signing.rs:54-98 | what the wallet does not accept and what another key signed is refused; an accepted payload shorter than a timestamp is a panic |
| `Signing.DecodedWasVerified` | aries/aries_vcx/src/common/signing.rs:54-98 | nothing is returned that the wallet did not accept under the given key |
| `StatusList.StatusListOf` | aries/misc/anoncreds_types/src/utils/conversions.rs:13-65 | the two insertion loops and their range errors |
| `StatusList.StatusListIsExact` | aries/misc/anoncreds_types/src/utils/conversions.rs:13-65 | the list marks exactly the revoked ids if and only if a bit lands on each of them and nowhere else; for distinct ids, if and only if they come in ascending order; its length is right only for an empty delta |
| `StatusList.BitLands` | aries/misc/anoncreds_types/src/utils/conversions.rs:42-54 | for any ids, repeated or not, which bits are set after all insertions |
| `StatusList.RepeatedIds` | aries/misc/anoncreds_types/src/utils/conversions.rs:42-54 | the ids 3, 3 give an exact list of four and a wrong list of five |
| `StatusList.DescendingMisplaces` | aries/misc/anoncreds_types/src/utils/conversions.rs:42-54 | ids 5, 3 mark 3 and 6 |
| `StatusList.Ones` | aries/aries_vcx_anoncreds/src/anoncreds/anoncreds/mod.rs:87-138 | the ids read back from a list are its set positions, ascending |
| `Revocation.RevocationRegistry.PublishRevRegDef` | aries/aries_vcx/src/common/primitives/revocation_registry.rs:105-135 | the tails location changes even on failure, the state only on success |
| `Revocation.RevocationRegistry.PublishRevRegDelta` | aries/aries_vcx/src/common/primitives/revocation_registry.rs:137-164 | the initial entry is submitted; the state changes only on success |
| `Revocation.RevocationRegistry.PublishRevocationPrimitives` | aries/aries_vcx/src/common/primitives/revocation_registry.rs:166-210 | each part is skipped when published, and the first failure ends the call |
| `Revocation.RevocationRegistry.RevokeCredentialLocal` | aries/aries_vcx/src/common/primitives/revocation_registry.rs:230-251 | the pending delta after a revocation, and that every failure leaves it as it was |
| `Revocation.RevocationRegistry.PublishLocalRevocations` | aries/aries_vcx/src/common/primitives/revocation_registry.rs:253-308 | publish, then clear, with every failing branch |
| `Revocation.Wallet.ClearDelta` | aries/aries_vcx_anoncreds/src/anoncreds/anoncreds/mod.rs:1209-1221 | an unreadable record counts as cleared and stays |
| `Revocation.PublishedOnce` | aries/aries_vcx/src/common/primitives/revocation_registry.rs:105-210 | in every run under every failure the acknowledged log is a prefix of definition, entry; the flags tell exactly what was acknowledged; the ledger never sees an entry before an acknowledged definition or a definition after it |
| `Revocation.RetryCompletes` | aries/aries_vcx/src/common/primitives/revocation_registry.rs:166-210 | after any run one call without failures completes it, submitting only what is missing |
| `Revocation.NoRevocationLost` | aries/aries_vcx/src/common/primitives/revocation_registry.rs:230-308 | in every run, whatever the ledger answers, every id revoked with success is pending or on the ledger |
| `Revocation.ConfirmedIsOnLedger` | aries/aries_vcx/src/common/primitives/revocation_registry.rs:253-308 | after a confirmed publication, cleared or not, all of them are on the ledger |
| `Revocation.ExactlyTheAsked` | aries/aries_vcx_anoncreds/src/anoncreds/anoncreds/mod.rs:1104-1183 | with truthful ascending answers the ids pending or on the ledger are exactly those asked for |
| `Revocation.RevokeOutcome` | aries/aries_vcx_anoncreds/src/anoncreds/anoncreds/mod.rs:1104-1183 | when a local revocation succeeds, that it makes the stored or answered ids and the new id pending, and that it changes nothing otherwise |
| `Revocation.PublishOutcome` | aries/aries_vcx/src/common/primitives/revocation_registry.rs:253-308 | what is sent, when the delta is cleared, and which error is reported |
| `Revocation.PrimitivesOutcome` | aries/aries_vcx/src/common/primitives/revocation_registry.rs:166-210 | at which part a failure stops the publication |
| `Revocation.SafeAnswer` | aries/aries_vcx_anoncreds/src/anoncreds/anoncreds/mod.rs:1104-1183 | an answer is safe to revoke any id on top of if and only if it is strictly ascending |
| `Revocation.FalselyRevokes` | aries/aries_vcx_anoncreds/src/anoncreds/anoncreds/mod.rs:1104-1183 | a run from the start that asks only for 3 and 5 ends with 6 pending, once the ledger answers 5, 3 |
| `CredentialValues.EncodeAttributes` | aries/aries_vcx/src/common/credentials/encoding.rs:8-108 | the loops with their early errors, in whatever order a hash map is walked |
| `CredentialValues.BuildCredentialPreview` | aries/aries_vcx/src/handlers/issuance/issuer.rs:40-119 | one attribute per item or field, or the first error |
| `CredentialValues.EncodeNumber` | aries/aries_vcx/src/utils/openssl.rs:6-18 | texts of 32-bit numbers keep their number, encoding is idempotent on them, and equal exactly for equal numbers |
| `CredentialValues.EncodeDecimal` | aries/aries_vcx/src/utils/openssl.rs:6-18 | plain decimal texts stay as they are below 2^32 and are digested from there on |
| `CredentialValues.EncodeExactly` | aries/aries_vcx/src/utils/openssl.rs:6-18 | exactly the spellings of 32-bit numbers, with zeros or a plus sign before them, become the plain decimal text |
| `CredentialValues.EncodeOther` | aries/aries_vcx/src/utils/openssl.rs:6-18 | every other text becomes the decimal text of its digest, and what that reads as |
| `CredentialValues.DictionaryAgrees` | aries/aries_vcx/src/common/credentials/encoding.rs:64-90 | the dictionary has exactly the listed names, each with its last value |
| `CredentialValues.AgreesUnique` | aries/aries_vcx/src/common/credentials/encoding.rs:64-90 | and that determines it |
| `CredentialValues.PreviewIsEncoded` | aries/aries_vcx/src/handlers/issuance/issuer.rs:40-119 | every array or object the preview accepts is encoded, with the preview's names, last values and their encodings |
| `CredentialValues.AcceptanceGap` | aries/aries_vcx/src/handlers/issuance/issuer.rs:60-116 | exactly where the two differ: scalars, and objects with a value in an array |
| `CredentialValues.EncodesExactly` | aries/aries_vcx/src/common/credentials/encoding.rs:8-108 | the encoder accepts exactly the objects of strings and string-led arrays, and the lists of name/value objects |
| `CredentialValues.PreviewShows` | aries/aries_vcx/src/handlers/issuance/issuer.rs:40-119 | when a preview is made, and that it shows exactly what the JSON says |
| `CredentialValues.ErrorKinds` | aries/aries_vcx/src/common/credentials/encoding.rs:8-108 | which error each kind of bad input gives, in the encoder and in the preview |
| `CredentialValues.ScalarExample` | aries/aries_vcx/src/handlers/issuance/issuer.rs:115-119 | a JSON string has an empty preview and no encoding |
| `CredentialValues.FormatsAgree` | aries/aries_vcx/src/common/credentials/encoding.rs:12-90 | strings, arrays, mixtures and name/value lists of the same values, in any order, give the same dictionary |
| `LedgerRouting.Find` | aries/aries_vcx_ledger/src/ledger/multi_ledger.rs:50-57 | the first supporting reader, if any |
| `LedgerRouting.AsksTheFirst` | aries/aries_vcx_ledger/src/ledger/multi_ledger.rs:45-143 | each of the six reads goes to the first reader that supports its own kind of id, or is refused |
| `LedgerRouting.AdaptorAsksTheSame` | aries/aries_vcx_ledger/src/ledger/multi_ledger.rs:206-277 | an adaptor asks its ledger for just what it was asked |
| `LedgerRouting.MultiLedger.RegisterReader` | aries/aries_vcx_ledger/src/ledger/multi_ledger.rs:152-162 | the reader comes last and no supported read changes |
| `LedgerRouting.RegisteringNeverRedirects` | aries/aries_vcx_ledger/src/ledger/multi_ledger.rs:45-162 | readers added later answer exactly what nothing supported before |
| `LedgerRouting.NestingIsFlat` | aries/aries_vcx_ledger/src/ledger/multi_ledger.rs:45-181 | a tree of aggregates routes every read as the flat list of its ledgers would |
| `LedgerRouting.FirstLeafDecides` | aries/aries_vcx_ledger/src/ledger/multi_ledger.rs:165-181 | support and route of any tree are those of its first supporting leaf |
| `LedgerRouting.AdaptorIsTransparent` | aries/aries_vcx_ledger/src/ledger/multi_ledger.rs:206-277 | around an aggregate, whose metadata already is JSON, the adaptor changes no query and no answer |
| `LedgerRouting.MetadataReturns` | aries/aries_vcx_ledger/src/ledger/multi_ledger.rs:233-270 | metadata handed back after further registrations reaches the ledger that made it, whatever its own metadata type, as the value it made |
| `LedgerCache.IndyReader.SubmitRequest` | aries/aries_vcx_ledger/src/ledger/indy_vdr_ledger.rs:145-178 | cache hit, miss with put, uncached request, and every failure |
| `LedgerCache.IndyReader.GetRevRegDef` | aries/aries_vcx_ledger/src/ledger/indy_vdr_ledger.rs:566-593 | the parsed definition and its metadata, cached under the registry id |
| `LedgerCache.IndyReader.GetRevStatusList` | aries/aries_vcx_ledger/src/ledger/indy_vdr_ledger.rs:627-657 | delta first, then supplied or fetched metadata, then the status list |
| `LedgerCache.CacheIsGenuine` | aries/aries_vcx_ledger/src/ledger/indy_vdr_ledger.rs:145-178 | for any ledger and any run, a cached response is one the ledger gave for that very id |
| `LedgerCache.ReadsThroughTheCache` | aries/aries_vcx_ledger/src/ledger/indy_vdr_ledger.rs:145-178 | a stored reply answers the next read, an uncached read asks the ledger and leaves the cache alone |
| `LedgerCache.DefinitionIsParsed` | aries/aries_vcx_ledger/src/ledger/indy_vdr_ledger.rs:566-593 | the parsed definition with its own size and issuer as metadata, or a refusal |
| `LedgerCache.CachedDefinition` | aries/aries_vcx_ledger/src/ledger/indy_vdr_ledger.rs:566-593 | with a constant ledger a read fails by cacher or ledger or equals the uncached read |
| `LedgerCache.SuppliedMetadata` | aries/aries_vcx_ledger/src/ledger/indy_vdr_ledger.rs:627-657 | metadata read at any earlier point gives the same status list as none |
| `LedgerCache.StatusMarksRevoked` | aries/aries_vcx_ledger/src/ledger/indy_vdr_ledger.rs:627-657 | a returned list carries the right issuer and time; it marks exactly the revoked ids if and only if they land so, for distinct ids if and only if the ledger listed them in ascending order |
| `LedgerCache.FirstReplySticks` | aries/aries_vcx_ledger/src/ledger/indy_vdr_ledger.rs:145-178 | with a changing ledger the first reply stored answers every later read until forgotten |
| `RecordTags.RecordTags.Add` | aries/aries_vcx_wallet/src/wallet/record_tags.rs:97-100 | sorted, with one more tag |
| `RecordTags.RecordTags.Merge` | aries/aries_vcx_wallet/src/wallet/record_tags.rs:110-113 | sorted, with the tags of both |
| `RecordTags.RecordTags.Remove` | aries/aries_vcx_wallet/src/wallet/record_tags.rs:115-119 | sorted, without exactly the tags of that key |
| `RecordTags.Collect` | aries/aries_vcx_wallet/src/wallet/record_tags.rs:132-150 | adding one at a time ends where sorting all at once does |
| `RecordTags.TagOrder` | aries/aries_vcx_wallet/src/wallet/record_tags.rs:5-9 | the derived order is total, antisymmetric and transitive |
| `RecordTags.TextOrderIs` | aries/aries_vcx_wallet/src/wallet/record_tags.rs:5-9 | texts are ordered by the first character in which they differ, a prefix first |
| `RecordTags.SortedUnique` | aries/aries_vcx_wallet/src/wallet/record_tags.rs:40-42 | a sorted list is determined by its multiset |
| `RecordTags.RunContent` | aries/aries_vcx_wallet/src/wallet/record_tags.rs:89-150 | every reachable value is sorted and holds what its history says |
| `RecordTags.KeysThenValues` | aries/aries_vcx_wallet/src/wallet/record_tags.rs:89-150 | in every reachable value the keys ascend, and under one key the values |
| `RecordTags.EqualIffSameContent` | aries/aries_vcx_wallet/src/wallet/record_tags.rs:40-42 | two reachable values are equal exactly when they hold the same tags equally often |
| `RecordTags.MergeCommutes` | aries/aries_vcx_wallet/src/wallet/record_tags.rs:110-113 | merging is commutative and associative |
| `RecordTags.RemoveUndoesAdds` | aries/aries_vcx_wallet/src/wallet/record_tags.rs:115-119 | removing a key undoes additions under it |
| `RecordTags.CollectedAgain` | aries/aries_vcx_wallet/src/wallet/record_tags.rs:132-150 | collecting the tags of a reachable value again gives the same value |
| `TagText.Serialize` | aries/aries_vcx_wallet/src/wallet/record_tags.rs:44-55 | the loop writes one JSON member per tag, repeated keys included |
| `TagText.Deserialize` | aries/aries_vcx_wallet/src/wallet/record_tags.rs:57-87 | reads members whose keys and values are slices of the text, and adds them one by one |
| `TagText.ReadQuoted` | aries/aries_vcx_wallet/src/wallet/record_tags.rs:66-76 | a written string can be read as a slice exactly when nothing in it was escaped |
| `TagText.OwnedRoundTrip` | aries/aries_vcx_wallet/src/wallet/record_tags.rs:44-55 | what is written is JSON: a reader that resolves escapes gets every text back |
| `TagText.TextRoundTrip` | aries/aries_vcx_wallet/src/wallet/record_tags.rs:44-87 | a reachable value comes back unchanged if no key and no value holds a character JSON escapes, and is refused otherwise |
| `TagText.QuotedWordIsRefused` | aries/aries_vcx_wallet/src/wallet/record_tags.rs:66-76 | one quoted word in a value makes the text unreadable |
| `VersionRegistry.RegistryMap.MapInsert` | aries/messages/src/msg_types/registry.rs:52-74 | the minor is appended under its protocol and major version |
| `VersionRegistry.FindBack` | aries/messages/src/msg_types/registry.rs:109-113 | the last entry not above the request, or none exactly when there is none |
| `VersionRegistry.SearchIsGreatest` | aries/messages/src/msg_types/registry.rs:105-113 | the search finds the greatest for every request if and only if the insertion order recovers |
| `VersionRegistry.DescendingResolvesDown` | aries/messages/src/msg_types/registry.rs:109-113 | with 1 inserted before 0, a request for 1 resolves to 0 |
| `VersionRegistry.ResolvesToBest` | aries/messages_macros/src/message_type.rs:112-119 | resolution gives the greatest registered version not above the request and fails exactly when there is none, with the right error |
| `VersionRegistry.ResolutionIsStable` | aries/messages_macros/src/message_type.rs:207-227 | resolution is monotone and a resolved version resolves to itself |
| `VersionRegistry.ShippedIsInOrder` | aries/messages/src/msg_types/registry.rs:76-103 | the shipped registry meets the conditions for every protocol |
| `VersionRegistry.ShippedIsEverything` | aries/messages/src/msg_types/registry.rs:76-103 | every declared version is registered, and no other |
| `VersionRegistry.ShippedResolution` | aries/messages/src/msg_types/registry.rs:105-113 | the shipped agent resolves every request to the greatest declared minor not above it, and fails exactly when there is none |
| `Relay.UserMessages.SendUserMessage` | misc/simple_message_relay/src/main.rs:42-61 | the message joins the end of its user's queue |
| `Relay.UserMessages.PopUserMessage` | misc/simple_message_relay/src/main.rs:22-40 | the first message leaves its user's queue, if there is one |
| `Relay.NothingLost` | misc/simple_message_relay/src/main.rs:22-61 | in every interleaving, sent equals popped followed by queued |
| `Relay.EmptyIffAllPopped` | misc/simple_message_relay/src/main.rs:22-40 | a pop is empty exactly when all that was sent has been popped |
| `Relay.UsersIsolated` | misc/simple_message_relay/src/main.rs:22-61 | a user sees a run as if alone in it |

## Left out

- Cryptography: packing, signatures, SHA-256 and the revocation accumulator are symbolic constructors or parameters with the contract stated where they are used.
- JSON text: serialisation is a pair of functions whose round trip is a stated hypothesis, except for record tags, whose text is written out; credential values are inspected as JSON values.
- Foreign crates: base58, multibase, unsigned varint, base64 and the parser combinators follow their published behaviour; the multibase alphabets other than base58btc are a parameter.
- The SQL store is modelled by its statements and schema, with rows in order of insertion and exact string comparison; collation, column sizes and the 32-bit width of message counts are not.
- The cacher is any that returns nothing but the last value put for an id; it may forget and fail.
- Message ids are numbered by insertion instead of random bytes; clocks, UUIDs and fresh keys are parameters.
- MediatorEndToEnd.EndToEnd: about a mediator with no upstream routing keys, the only kind for which the message is queued for its recipient (MediatorEndToEnd.ForwardIsQueued), and about store calls of the forward and of the delivery that succeed.
- Coordination messages that the mediator answers with `unimplemented` are a panic outcome of the step.
- Concurrency inside one request: requests, registry calls and relay calls run one after the other.
- Percent decoding of query values in `DidUrl::queries`: the ranges and the undecoded text are modelled.
- Text of the encoded dictionary and of previews beyond names and values (MIME type, pretty printing).
- The order of attributes that a preview makes from a JSON object: any order is allowed by the model.
- Registry entries hold the minor version only; their roles and printed protocol ids are not modelled, and protocol names are an enumeration.
- Straight-line vector building in `multicodec_prefixed_key` and `get_signature_data` is modelled on values.
- Holder, issuer, prover, verifier, connection and did-exchange state machines, resolvers, networking, HTTP servers, terminal UI, bindings and agent wrappers: not part of this model.
