# Harmony hub client: a Dafny model

This project models the core of harmonyhubjs-client, a client for Logitech
Harmony hubs that talks XMPP to the hub. Three parts of it are modelled:

- `lib/util.mjs` (module `Util`). It holds the request-id generator, the IQ
  stanza builder and `decodeColonSeparatedResponse`. That decoder turns the
  hub's `key=value:key=value` payloads into an object.
- `lib/harmonyclient.mjs` (module `Client`). This is the `HarmonyClient`
  object. `request` queues a response handler and sends a command stanza.
  `handleStanza` emits state digests and makes one `forEach` pass over the
  handler queue, resolving and splicing out each handler whose predicate
  accepts the stanza. The activity helpers are built on `request`.
- `lib/login/hub.mjs` (module `HubLogin`). A guest session pairs with the hub
  to obtain an identity token. A durable login then uses that token.

Helper modules:

- `Wrappers` holds `Option`.
- `Strings` models JavaScript's single-character `split` and `join`, and the
  decimal rendering of numeric ids.
- `Xmpp` holds the stanza records.
- `Sequences` selects the elements of a sequence under a boolean mask.

Modelling choices:

- `Math.random` and the wall clock are parameters, `random: real` in
  `[0, 1)` and `timestamp: nat`.
- An absent or non-string value is `None`.
- `JSON.parse` is kept opaque: a JSON reply is the text it would parse
  (`Payload.Json`).
- Each `resolve` function is identified by the number of the promise it
  settles.

One stanza can resolve several handlers. In `handleStanza`, `splice` inside
`forEach` makes the pass skip only the handler right after a removed one, so
non-adjacent matching handlers are all resolved by the same stanza
(`Client.SeparatedMatchesBothResolved`,
`Client.AdjacentMatchesResolveOnlyFirst`).

Where the source's own doc comments and its code disagree, the model follows the code:

- **Empty input decodes to undefined.** The doc comment at lib/util.mjs:14-15
  promises an object. For an absent, non-string or empty response the code
  returns `undefined` (`None`; `Util.DecodeColonSeparatedResponse`).
- **The command name never reaches the stanza.** The doc comment at
  lib/harmonyclient.mjs:155 says the stanza contains the command.
  `buildCommandIqStanza` passes it only as the `mime` argument, which
  `buildIqStanza` never uses (`Client.CommandNameNotInStanza`).

Proof helpers have no row of their own in the table below. These are
`Util.SplitPair`, `Util.PrefixEncodable`, `Client.PromisesOfSelect`,
`Client.ResolutionsSnoc`, `Client.PassStart`, `Client.DecimalHasNoDelimiters`
and `Client.StartActivityBodySegments`. `Client.PromisesOf` and
`Client.ResolvedPromises` are one projection, applied to queued handlers and
to resolve calls.

## Model

| member | source | states |
|---|---|---|
| Util.DecodeSegments | lib/util.mjs:24-31 | the object built by assigning every kept segment in turn never holds `__proto__`; its keys and values are characterised by the lemmas below |
| Util.Decode | lib/util.mjs:17-35 | undefined exactly for an absent, non-string or empty response; otherwise the decoding of its `:`-split, without `__proto__` |
| Util.UniqueId | lib/util.mjs:3-5 | the id is `floor(random * 1000000)`: below one million, within 1 of `random * 1000000` and not above it |
| Util.BuildIqStanza | lib/util.mjs:37-47 | the stanza carries the given type, sender, namespace and body, under an id below one million |
| Util.BuildIqStanzaIgnoresMime | lib/util.mjs:37-47 | the `mime` argument has no effect on the stanza built |
| Util.DecodeColonSeparatedResponse | lib/util.mjs:17-35 | the segment-by-segment loop returns undefined exactly for an absent, non-string or empty response, and otherwise the decoding of its `:`-split |
| Util.IsPairIffOneEquals | lib/util.mjs:25-27 | a segment is kept exactly when it contains a single `=` |
| Util.DecodedKeys | lib/util.mjs:24-31 | a key is in the result iff some kept segment carries it and it is not `__proto__` |
| Util.LastPairWins | lib/util.mjs:24-31 | a repeated key takes the value of its last kept segment |
| Util.DecodedFieldsHaveNoDelimiters | lib/util.mjs:21-31 | segments free of `:` decode to keys and values free of `:` and `=` |
| Util.DecodeHasNoDelimiters | lib/util.mjs:17-35 | no decoded key or value of any response contains `:` or `=` |
| Util.DecodePairTextsSnoc | lib/util.mjs:24-31 | the last encoded pair is assigned last |
| Util.DecodePairTextsKeys | lib/util.mjs:24-31 | decoding encoded pairs yields exactly their keys |
| Util.DecodePairTextsValues | lib/util.mjs:24-31 | decoding encoded pairs maps each key to its own value |
| Util.DecodePairTexts | lib/util.mjs:24-31 | decoding encoded pairs yields exactly those keys, each mapped to its value |
| Util.DecodeEncodeFields | lib/util.mjs:17-35 | round trip: a non-empty `k=v:k=v` text of distinct, delimiter-free pairs decodes to exactly those pairs |
| Util.DecodeSegmentsSnocPair | lib/util.mjs:24-31 | appending a `key=value` segment assigns that key after all earlier ones |
| Util.DecodeSinglePair | lib/util.mjs:17-35 | a lone `key=value` response decodes to that one field |
| Util.DecodeTwoPairs | lib/util.mjs:17-35 | `k1=v1:k2=v2` decodes to both fields, the second assigned last |
| Util.EmptyKeyOrValueKept | lib/util.mjs:25-29 | `k=` and `=v` are kept, with an empty value and an empty key |
| Client.BuildCommandIqStanza | lib/harmonyclient.mjs:161-170 | a command stanza is a `get` under `connect.logitech.com`, with no sender, carrying the body |
| Client.CommandNameNotInStanza | lib/harmonyclient.mjs:161-170 | two commands with the same body and id give the same stanza |
| Client.DefaultCanHandleStanzaPredicate | lib/harmonyclient.mjs:172-175 | an accepted stanza carries the awaited id; an empty (falsy) id is never accepted |
| Client.DefaultPredicateMatchesOwnId | lib/harmonyclient.mjs:172-175 | for a request's id, the default predicate accepts exactly the stanzas carrying that id |
| Client.DefaultPredicateSeparatesIds | lib/harmonyclient.mjs:172-175 | no stanza satisfies the default predicates of two different ids |
| Client.MaskAfterRule | lib/harmonyclient.mjs:43-59 | from any starting point, a handler is removed iff it accepts and its predecessor was not removed |
| Client.MaskRule | lib/harmonyclient.mjs:43-59 | forEach with splice removes a handler iff it accepts the stanza and the handler before it was not removed |
| Client.RemovedOnlyIfAccepts | lib/harmonyclient.mjs:44 | only an accepting handler is removed |
| Client.ResolvedHandlersAccept | lib/harmonyclient.mjs:44-56 | every resolved handler's predicate accepted the stanza |
| Client.RejectingHandlerSurvives | lib/harmonyclient.mjs:43-59 | a handler that rejects the stanza stays queued |
| Client.PassSplitsQueue | lib/harmonyclient.mjs:43-59 | a pass is a partition: survivors and resolved handlers are subsequences of the queue and together hold exactly its promises |
| Client.ResolvedPromisesOfResolutions | lib/harmonyclient.mjs:56 | resolving handlers settles exactly their promises, in order |
| Client.AdjacentMatchesResolveOnlyFirst | lib/harmonyclient.mjs:43-59 | of two adjacent accepting handlers only the first is resolved; the second stays queued |
| Client.SeparatedMatchesBothResolved | lib/harmonyclient.mjs:43-59 | two accepting handlers with a rejecting one between them are both resolved |
| Client.UnmatchedStanzaLeavesQueue | lib/harmonyclient.mjs:43-59 | a stanza no handler accepts leaves the queue unchanged and resolves nothing |
| Client.PassOverOne | lib/harmonyclient.mjs:43-59 | a lone handler is resolved exactly when it accepts |
| Client.PassOverTwoSecondAccepts | lib/harmonyclient.mjs:43-59 | when only the second of two accepts, it alone is resolved |
| Client.RepliesCorrelateInEitherOrder | lib/harmonyclient.mjs:172-175 | with default predicates and distinct ids, replies arriving in reverse order each resolve their own request only |
| Client.IsStateDigest | lib/harmonyclient.mjs:37-38 | the stanza has an `event` child of type `connect.stateDigest?notify`; no contract of its own, HandleStanza's contract is stated through it |
| Client.StartActivity | lib/harmonyclient.mjs:97-100 | a `startactivity` request whose reply is decoded; for a delimiter-free id the body decodes to exactly `activityId` and `timestamp` |
| Client.TurnOff | lib/harmonyclient.mjs:122-125 | a `startactivity` request whose body decodes to activity `-1` and the timestamp |
| Client.GetCurrentActivity | lib/harmonyclient.mjs:72-77 | a bodiless `getCurrentActivity` request whose reply is decoded |
| Client.GetAvailableCommands | lib/harmonyclient.mjs:148-152 | a bodiless `config` request whose reply is parsed as JSON |
| Client.IsOff | lib/harmonyclient.mjs:134-141 | throws (`None`) exactly when the reply decoded to undefined; otherwise true iff its `result` field is `-1` |
| Client.StartActivityConfirmed | lib/harmonyclient.mjs:102-113 | the start is confirmed iff a digest reports the same activity id with status 0 (for `-1`) or 2 (otherwise) |
| Client.CallPayloads | lib/harmonyclient.mjs:148-152 | the config reply resolves with its JSON text; getCurrentActivity and startActivity replies resolve with its decoded fields |
| Client.StartActivityBodyDecodes | lib/harmonyclient.mjs:97-100 | for an activity id free of `:` and `=`, the startActivity body decodes to exactly `activityId` and `timestamp` |
| Client.TurnOffIsStartOfMinusOne | lib/harmonyclient.mjs:122-125 | turnOff starts activity `-1` and is confirmed only by a digest of activity `-1` with status 0 |
| Client.IsOffReadsResult | lib/harmonyclient.mjs:134-141 | isOff on a `result=<id>` reply is true iff the id is `-1` |
| Client.HarmonyClient.constructor | lib/harmonyclient.mjs:14-20 | the client starts with the given host and port and an empty handler queue |
| Client.HarmonyClient.Request | lib/harmonyclient.mjs:197-214 | appends one handler with the given or default predicate and response type and a fresh promise, and sends the command stanza |
| Client.HarmonyClient.Send | lib/harmonyclient.mjs:225-228 | sends the command stanza and leaves the queue alone |
| Client.HarmonyClient.HandleStanza | lib/harmonyclient.mjs:33-60 | when a digest's text does not parse it throws before emitting or offering the stanza to any handler, changing nothing; otherwise emits the digest text iff the stanza is a state digest, leaves the survivors queued and resolves the removed handlers in order; keeps the promise bookkeeping |
| Client.HarmonyClient.ResolveHandlers | lib/harmonyclient.mjs:43-59 | the forEach/splice loop leaves exactly the survivors and resolves exactly the removed handlers, in queue order |
| Client.PassEnd | lib/harmonyclient.mjs:43-59 | when forEach runs off the end, the live queue is the survivors |
| Client.PassStep | lib/harmonyclient.mjs:44-57 | one iteration removes the handler at `index` iff it accepts, and advances past the handler the splice shifts under `index` |
| Client.Respond | lib/harmonyclient.mjs:47-54 | a handler is resolved with the JSON of `oa` for `json` and with its decoding otherwise |
| Client.PassKeepsPromisesValid | lib/harmonyclient.mjs:43-59 | a pass keeps the queued promises in request order and moves promises from queue to settled without loss or duplication |
| Client.QueueingKeepsPromisesConsistent | lib/harmonyclient.mjs:205-210 | queueing a fresh promise keeps every promise settled at most once and never both settled and queued |
| Client.PassKeepsPromisesConsistent | lib/harmonyclient.mjs:43-59 | a pass keeps every promise settled at most once and never both settled and queued |
| HubLogin.PairIq | lib/login/hub.mjs:36-40 | the pairing request is a `get` from `guest` under `connect.logitech.com` with the pairing body |
| HubLogin.PairBodyDecodes | lib/login/hub.mjs:36 | the pairing body decodes to `method=pair` and the device name |
| HubLogin.ReactToStanza | lib/login/hub.mjs:53-70 | a resolve carries a non-empty, delimiter-free identity; a reject carries `Did not retrieve identity.` |
| HubLogin.StanzaBeforeOnlineThrows | lib/login/hub.mjs:56 | before `online` the listener throws on every stanza |
| HubLogin.ForeignStanzaIgnored | lib/login/hub.mjs:56 | a stanza with another id is ignored |
| HubLogin.EmptyReplyThrows | lib/login/hub.mjs:57-60 | the awaited reply with no or empty `oa` throws |
| HubLogin.IdentityReplyResolves | lib/login/hub.mjs:57-63 | the awaited `identity=<token>` reply resolves with exactly that token |
| HubLogin.MissingIdentityRejects | lib/login/hub.mjs:57-68 | an awaited reply of well-formed fields without `identity` rejects |
| HubLogin.IdentityAmongFieldsResolves | lib/login/hub.mjs:57-63 | an awaited reply of well-formed fields with a non-empty `identity` among them resolves with that identity |
| HubLogin.EmptyIdentityAmongFieldsRejects | lib/login/hub.mjs:57-68 | an awaited reply of well-formed fields whose `identity` is empty rejects, whatever the other fields |
| HubLogin.EmptyIdentityRejects | lib/login/hub.mjs:60-68 | an awaited reply with an empty `identity` rejects |
| HubLogin.GuestSession.constructor | lib/login/hub.mjs:25-31 | the guest connection uses the fixed guest login with TLS disallowed |
| HubLogin.GuestSession.OnOnline | lib/login/hub.mjs:33-45 | sends the pairing request and awaits its id |
| HubLogin.GuestSession.OnStanza | lib/login/hub.mjs:53-70 | reacts as ReactToStanza; a resolve or reject ends the session, and only the first one settles the promise |
| HubLogin.IdentityCredentials | lib/login/hub.mjs:92-93 | the password is the identity |
| HubLogin.DurableJidDeterminesIdentity | lib/login/hub.mjs:92 | different identities give different jids |
| HubLogin.DurableLoginIsNeverGuest | lib/login/hub.mjs:92-93 | no identity yields the guest login |
| HubLogin.LoginWithIdentity | lib/login/hub.mjs:89-101 | the durable connection uses the identity as password, with the given host and port |
| HubLogin.EffectivePort | lib/login/hub.mjs:126 | the port given, else 5222; no contract of its own, LoginToHub's contract is stated through it |
| HubLogin.LoginToHub | lib/login/hub.mjs:126-131 | the guest session opens first; the durable login opens iff pairing resolved; both use the host and port (default 5222); it fails iff pairing rejected, with its reason |
| HubLogin.PairingExchange | lib/login/hub.mjs:18-131 | after `online` and the awaited `identity=<token>` reply, the session settles with the token and the login completes with the derived credentials |

## Left out

- `connect` (lib/harmonyclient.mjs:22-31) is not modelled: it performs the XMPP login and attaches listeners. The login itself is `HubLogin`. The stanza listener is `HarmonyClient.HandleStanza`.
- getActivities is not modelled: it reads `.activity` of the parsed JSON configuration, and JSON parsing is opaque here. Its request is `Client.GetAvailableCommands`.
- `request` and `send` before `connect` (no XMPP client yet) are not modelled.
- The parse of a state digest before the pass (lib/harmonyclient.mjs:39) is an input of `HandleStanza` (`digestParses`): a digest that does not parse throws and changes nothing. The `JSON.parse` of a `json` reply inside the pass (lib/harmonyclient.mjs:51) always succeeds in the model; a throw there, aborting the pass after earlier handlers were resolved and spliced, is not modelled.
- The XMPP transport is not modelled: the connection, rendering a stanza to XML (including how an undefined `from` or body renders), `end`, and the `error` listeners with their console output. Sent stanzas are recorded in `sent`, and `end` as `ended`.
- Promise asynchrony and listener scheduling are not modelled. `LoginToHub` takes as inputs how the guest session settled and whether the durable connection came online.
- HubLogin.LoginToHub: resolves with nothing, as the code does. The durable XMPP client that loginWithIdentity resolves with is not passed on.
- Client.StartActivityConfirmed: in the code, startActivity calls `getChild` on the decoded object that `request` resolves with. The model states only the confirmation rule, on the digest the code means to read, and not that type mismatch.
- Client.HarmonyClient.ResolveHandlers: the pass runs over a local copy of the queue that is written back afterwards. A predicate or `resolve` that touches the queue during the pass is not modelled; custom predicates are pure functions of the stanza.
- Event emission is recorded as the list of digest texts (`stateDigests`); listeners are not modelled.
- Debug logging is not modelled.
- lib/login/auth.mjs, lib/login/index.mjs and the example scripts are not part of this model.
