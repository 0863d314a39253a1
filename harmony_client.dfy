/**
 * lib/harmonyclient.mjs: the HarmonyClient, which multiplexes requests over
 * one XMPP connection. Each `request` queues a response handler; every
 * inbound stanza is first checked for a state-digest notification and then
 * offered to the queued handlers, which resolve and leave the queue when
 * their predicate accepts it.
 */
module Client {
  import opened Wrappers
  import opened Strings
  import opened Xmpp
  import opened Util
  import opened Sequences

  /** The `type` of the `event` child that marks an unsolicited state digest. */
  const StateDigestNotify: string := "connect.stateDigest?notify"

  /** The namespace every command stanza is sent under. */
  const CommandXmlns: string := "connect.logitech.com"

  /** The mime prefix buildCommandIqStanza puts before the command name. */
  const EngineMime: string := "vnd.logitech.harmony/vnd.logitech.harmony.engine?"

  /** The response type `request` uses when none is given. */
  const DefaultResponseType: string := "encoded"

  /** HarmonyClient.buildCommandIqStanza(command, body): a `get` stanza under the command namespace. */
  function BuildCommandIqStanza(command: string, body: Option<string>, random: real): (iq: IqStanza)
    requires 0.0 <= random < 1.0
    ensures iq.kind == "get" && iq.xmlns == CommandXmlns && iq.from == None && iq.body == body
    ensures iq.id < IdSpace
  {
    BuildIqStanza("get", CommandXmlns, EngineMime + command, body, None, random)
  }

  /**
   * The command name travels only in the `mime` argument, which
   * buildIqStanza ignores: two commands with the same body and id give the
   * same stanza.
   */
  lemma CommandNameNotInStanza(command1: string, command2: string, body: Option<string>, random: real)
    requires 0.0 <= random < 1.0
    ensures BuildCommandIqStanza(command1, body, random) == BuildCommandIqStanza(command2, body, random)
  {
    BuildIqStanzaIgnoresMime("get", CommandXmlns, EngineMime + command1, EngineMime + command2, body, None, random);
  }

  // ---------------------------------------------------------------------------
  // Response handlers

  /**
   * HarmonyClient.defaultCanHandleStanzaPredicate(awaitedId, stanza): the
   * stanza has a truthy `id` whose text is the awaited id's text.
   */
  predicate DefaultCanHandleStanzaPredicate(awaitedId: string, stanza: Stanza): (accepts: bool)
    ensures accepts ==> stanza.id == Some(awaitedId)
    ensures awaitedId == "" ==> !accepts
  {
    stanza.id.Some? && stanza.id.value != "" && stanza.id.value == awaitedId
  }

  /** For a request's own id the default predicate is plain id equality. */
  lemma DefaultPredicateMatchesOwnId(id: nat, stanza: Stanza)
    ensures DefaultCanHandleStanzaPredicate(Decimal(id), stanza) <==> stanza.id == Some(Decimal(id))
  {
  }

  /** No stanza satisfies the default predicates of two different ids. */
  lemma DefaultPredicateSeparatesIds(a: nat, b: nat, stanza: Stanza)
    requires a != b
    ensures !(DefaultCanHandleStanzaPredicate(Decimal(a), stanza) && DefaultCanHandleStanzaPredicate(Decimal(b), stanza))
  {
    if DefaultCanHandleStanzaPredicate(Decimal(a), stanza) && DefaultCanHandleStanzaPredicate(Decimal(b), stanza) {
      DecimalInjective(a, b);
    }
  }

  /** A handler's `canHandleStanza`: the default id match, or a predicate the caller supplied. */
  datatype Predicate = IdMatch(awaitedId: string) | Custom(accepts: Stanza -> bool)

  /**
   * A queued `{canHandleStanza, resolve, responseType}`; the `resolve`
   * function is identified by the number of the promise it settles.
   */
  datatype Handler = Handler(canHandleStanza: Predicate, promise: nat, responseType: string)

  predicate CanHandle(handler: Handler, stanza: Stanza)
  {
    match handler.canHandleStanza
    case IdMatch(awaitedId) => DefaultCanHandleStanzaPredicate(awaitedId, stanza)
    case Custom(accepts) => accepts(stanza)
  }

  /**
   * The value a handler is resolved with: the JSON parse of the `oa` text
   * (kept as the text it is parsed from) for `json`, the colon-separated
   * decoding of it for any other type.
   */
  datatype Payload = Json(source: Option<string>) | Fields(fields: Option<map<string, string>>)

  function ResponseFor(responseType: string, stanza: Stanza): Payload
  {
    if responseType == "json" then Json(stanza.oa) else Fields(Decode(stanza.oa))
  }

  /** One call of a handler's `resolve`. */
  datatype Resolution = Resolution(promise: nat, value: Payload)

  function Resolutions(handlers: seq<Handler>, stanza: Stanza): (rs: seq<Resolution>)
    ensures |rs| == |handlers|
  {
    if handlers == [] then []
    else
      var n := |handlers| - 1;
      Resolutions(handlers[..n], stanza)
        + [Resolution(handlers[n].promise, ResponseFor(handlers[n].responseType, stanza))]
  }

  function PromisesOf(handlers: seq<Handler>): (ps: seq<nat>)
    ensures |ps| == |handlers|
    ensures forall i :: 0 <= i < |handlers| ==> ps[i] == handlers[i].promise
  {
    seq(|handlers|, i requires 0 <= i < |handlers| => handlers[i].promise)
  }

  /** The counterpart of PromisesOf for the resolve log: the promise each resolve call settled. */
  function ResolvedPromises(rs: seq<Resolution>): (ps: seq<nat>)
    ensures |ps| == |rs|
    ensures forall i :: 0 <= i < |rs| ==> ps[i] == rs[i].promise
  {
    seq(|rs|, i requires 0 <= i < |rs| => rs[i].promise)
  }

  // ---------------------------------------------------------------------------
  // One pass of handleStanza over the queue

  /**
   * Which handlers one pass removes, when the handler before the first one
   * was (`previousRemoved`) or was not removed. `forEach` visits index `k`
   * while `k` is below the current length, and `splice(k, 1)` moves the next
   * handler down to `k`, so the handler right after a removed one is never
   * offered the stanza: a handler is removed exactly when it accepts the
   * stanza and its predecessor was not removed.
   */
  function MaskAfter(queue: seq<Handler>, stanza: Stanza, previousRemoved: bool): (mask: seq<bool>)
    ensures |mask| == |queue|
  {
    if queue == [] then []
    else
      var removed := !previousRemoved && CanHandle(queue[0], stanza);
      [removed] + MaskAfter(queue[1..], stanza, removed)
  }

  lemma {:induction false} MaskAfterRule(queue: seq<Handler>, stanza: Stanza, previousRemoved: bool, i: nat)
    requires i < |queue|
    ensures var mask := MaskAfter(queue, stanza, previousRemoved);
            mask[i] <==> CanHandle(queue[i], stanza) && !(if i == 0 then previousRemoved else mask[i - 1])
  {
    if i > 0 {
      var removed := !previousRemoved && CanHandle(queue[0], stanza);
      var rest := MaskAfter(queue[1..], stanza, removed);
      assert MaskAfter(queue, stanza, previousRemoved) == [removed] + rest;
      MaskAfterRule(queue[1..], stanza, removed, i - 1);
      assert queue[1..][i - 1] == queue[i];
    }
  }

  /** Which handlers one pass over the whole queue removes. */
  function RemovalMask(queue: seq<Handler>, stanza: Stanza): (mask: seq<bool>)
    ensures |mask| == |queue|
  {
    MaskAfter(queue, stanza, false)
  }

  /**
   * The forEach-and-splice rule: a handler is removed exactly when it
   * accepts the stanza and the handler before it was not removed.
   */
  lemma MaskRule(queue: seq<Handler>, stanza: Stanza, i: nat)
    requires i < |queue|
    ensures RemovalMask(queue, stanza)[i]
        <==> CanHandle(queue[i], stanza) && (i == 0 || !RemovalMask(queue, stanza)[i - 1])
  {
    MaskAfterRule(queue, stanza, false, i);
  }

  /** The handlers a pass leaves in the queue, in queue order. */
  function Survivors(queue: seq<Handler>, stanza: Stanza): seq<Handler>
  {
    Select(queue, RemovalMask(queue, stanza), false)
  }

  /** The handlers a pass resolves and removes, in the order it resolves them. */
  function Resolved(queue: seq<Handler>, stanza: Stanza): seq<Handler>
  {
    Select(queue, RemovalMask(queue, stanza), true)
  }

  /** A removed handler accepted the stanza; a handler that rejects it is not removed. */
  lemma RemovedOnlyIfAccepts(queue: seq<Handler>, stanza: Stanza, i: nat)
    requires i < |queue|
    ensures RemovalMask(queue, stanza)[i] ==> CanHandle(queue[i], stanza)
  {
    MaskRule(queue, stanza, i);
  }

  /** Every resolved handler's predicate accepted the stanza. */
  lemma ResolvedHandlersAccept(queue: seq<Handler>, stanza: Stanza)
    ensures forall k :: 0 <= k < |Resolved(queue, stanza)| ==> CanHandle(Resolved(queue, stanza)[k], stanza)
  {
    var mask := RemovalMask(queue, stanza);
    forall k | 0 <= k < |Resolved(queue, stanza)| ensures CanHandle(Resolved(queue, stanza)[k], stanza) {
      SelectMembers(queue, mask, true, k);
      var i :| 0 <= i < |queue| && mask[i] == true && queue[i] == Resolved(queue, stanza)[k];
      RemovedOnlyIfAccepts(queue, stanza, i);
    }
  }

  /** A handler whose predicate rejects the stanza stays queued. */
  lemma RejectingHandlerSurvives(queue: seq<Handler>, stanza: Stanza, i: nat)
    requires i < |queue| && !CanHandle(queue[i], stanza)
    ensures queue[i] in Survivors(queue, stanza)
  {
    RemovedOnlyIfAccepts(queue, stanza, i);
    SelectContains(queue, RemovalMask(queue, stanza), false, i);
  }

  /**
   * A pass adds nothing: the queue splits into the survivors, kept in their
   * original relative order, and the resolved handlers.
   */
  lemma PassSplitsQueue(queue: seq<Handler>, stanza: Stanza)
    ensures IsSubsequence(Survivors(queue, stanza), queue)
    ensures IsSubsequence(Resolved(queue, stanza), queue)
    ensures multiset(PromisesOf(Resolved(queue, stanza))) + multiset(PromisesOf(Survivors(queue, stanza)))
         == multiset(PromisesOf(queue))
  {
    var mask := RemovalMask(queue, stanza);
    SelectIsSubsequence(queue, mask, false);
    SelectIsSubsequence(queue, mask, true);
    PromisesOfSelect(queue, mask, true);
    PromisesOfSelect(queue, mask, false);
    SelectPartition(PromisesOf(queue), mask);
  }

  lemma {:induction false} PromisesOfSelect(handlers: seq<Handler>, mask: seq<bool>, bit: bool)
    requires |mask| == |handlers|
    ensures PromisesOf(Select(handlers, mask, bit)) == Select(PromisesOf(handlers), mask, bit)
  {
    if handlers != [] {
      var n := |handlers| - 1;
      PromisesOfSelect(handlers[..n], mask[..n], bit);
      assert PromisesOf(handlers)[..n] == PromisesOf(handlers[..n]);
    }
  }

  lemma {:induction false} ResolutionsSnoc(handlers: seq<Handler>, stanza: Stanza, h: Handler)
    ensures Resolutions(handlers + [h], stanza)
         == Resolutions(handlers, stanza) + [Resolution(h.promise, ResponseFor(h.responseType, stanza))]
  {
    assert (handlers + [h])[..|handlers|] == handlers;
  }

  lemma {:induction false} ResolvedPromisesOfResolutions(handlers: seq<Handler>, stanza: Stanza)
    ensures ResolvedPromises(Resolutions(handlers, stanza)) == PromisesOf(handlers)
  {
    if handlers != [] {
      var n := |handlers| - 1;
      ResolvedPromisesOfResolutions(handlers[..n], stanza);
      assert handlers == handlers[..n] + [handlers[n]];
      ResolutionsSnoc(handlers[..n], stanza, handlers[n]);
      assert ResolvedPromises(Resolutions(handlers, stanza))[..n] == ResolvedPromises(Resolutions(handlers[..n], stanza));
    }
  }

  /** Of two adjacent handlers that both accept the stanza, only the first is resolved. */
  lemma AdjacentMatchesResolveOnlyFirst(first: Handler, second: Handler, stanza: Stanza)
    requires CanHandle(first, stanza) && CanHandle(second, stanza)
    ensures Resolved([first, second], stanza) == [first]
    ensures Survivors([first, second], stanza) == [second]
  {
    var queue := [first, second];
    var mask := RemovalMask(queue, stanza);
    MaskRule(queue, stanza, 0);
    MaskRule(queue, stanza, 1);
    assert mask == [true, false];
    assert Select([first], [true], true) == [first] && Select([first], [true], false) == [];
    assert queue[..1] == [first] && mask[..1] == [true];
  }

  /** Two accepting handlers with a rejecting one between them are both resolved by one stanza. */
  lemma SeparatedMatchesBothResolved(first: Handler, between: Handler, last: Handler, stanza: Stanza)
    requires CanHandle(first, stanza) && !CanHandle(between, stanza) && CanHandle(last, stanza)
    ensures Resolved([first, between, last], stanza) == [first, last]
    ensures Survivors([first, between, last], stanza) == [between]
  {
    var queue := [first, between, last];
    var mask := RemovalMask(queue, stanza);
    MaskRule(queue, stanza, 0);
    MaskRule(queue, stanza, 1);
    MaskRule(queue, stanza, 2);
    assert mask == [true, false, true];
    assert Select([first], [true], true) == [first] && Select([first], [true], false) == [];
    assert [first, between][..1] == [first] && [true, false][..1] == [true];
    assert Select([first, between], [true, false], true) == [first];
    assert Select([first, between], [true, false], false) == [between];
    assert queue[..2] == [first, between] && mask[..2] == [true, false];
  }

  /** A stanza no handler accepts leaves the queue as it was and resolves nothing. */
  lemma UnmatchedStanzaLeavesQueue(queue: seq<Handler>, stanza: Stanza)
    requires forall i :: 0 <= i < |queue| ==> !CanHandle(queue[i], stanza)
    ensures Survivors(queue, stanza) == queue
    ensures Resolved(queue, stanza) == []
  {
    var mask := RemovalMask(queue, stanza);
    forall i | 0 <= i < |queue| ensures mask[i] == false {
      RemovedOnlyIfAccepts(queue, stanza, i);
    }
    SelectUniform(queue, mask, false);
  }

  /** A single handler is resolved exactly when it accepts the stanza. */
  lemma PassOverOne(handler: Handler, stanza: Stanza)
    ensures Resolved([handler], stanza) == (if CanHandle(handler, stanza) then [handler] else [])
    ensures Survivors([handler], stanza) == (if CanHandle(handler, stanza) then [] else [handler])
  {
    var mask := RemovalMask([handler], stanza);
    MaskRule([handler], stanza, 0);
    assert mask == [CanHandle(handler, stanza)];
    assert [handler][..0] == [] && mask[..0] == [];
  }

  /** When only the second of two handlers accepts, it is the one resolved. */
  lemma PassOverTwoSecondAccepts(first: Handler, second: Handler, stanza: Stanza)
    requires !CanHandle(first, stanza) && CanHandle(second, stanza)
    ensures Resolved([first, second], stanza) == [second]
    ensures Survivors([first, second], stanza) == [first]
  {
    var queue := [first, second];
    var mask := RemovalMask(queue, stanza);
    MaskRule(queue, stanza, 0);
    MaskRule(queue, stanza, 1);
    assert mask == [false, true];
    assert Select([first], [false], true) == [] && Select([first], [false], false) == [first];
    assert queue[..1] == [first] && mask[..1] == [false];
  }

  /**
   * Two requests with default predicates and distinct ids, answered in the
   * reverse order: each reply resolves its own request and only that one.
   */
  lemma RepliesCorrelateInEitherOrder(a: Handler, idA: nat, b: Handler, idB: nat, replyA: Stanza, replyB: Stanza)
    requires idA != idB
    requires a.canHandleStanza == IdMatch(Decimal(idA)) && b.canHandleStanza == IdMatch(Decimal(idB))
    requires replyA.id == Some(Decimal(idA)) && replyB.id == Some(Decimal(idB))
    ensures Resolved([a, b], replyB) == [b] && Survivors([a, b], replyB) == [a]
    ensures Resolved([a], replyA) == [a] && Survivors([a], replyA) == []
  {
    DefaultPredicateMatchesOwnId(idA, replyA);
    DefaultPredicateMatchesOwnId(idB, replyB);
    DefaultPredicateSeparatesIds(idA, idB, replyB);
    PassOverTwoSecondAccepts(a, b, replyB);
    PassOverOne(a, replyA);
  }

  // ---------------------------------------------------------------------------
  // State digests and the activity helpers

  /** The stanza carries an unsolicited state-digest notification. */
  predicate IsStateDigest(stanza: Stanza)
  {
    stanza.event.Some? && stanza.event.value.kind == Some(StateDigestNotify)
  }

  /**
   * The fields startActivity reads from a parsed digest: `activityId` when it
   * is a string and `activityStatus` when it is an integer (`None`
   * otherwise, which no strict comparison with a string or number accepts).
   */
  datatype Digest = Digest(activityId: Option<string>, activityStatus: Option<int>)

  /**
   * The verdict startActivity(activityId) computes from the state digest it
   * reads (`None` when there is no digest event): `-1` is confirmed by status
   * 0, any other id by status 2, in both cases for the same id.
   */
  function StartActivityConfirmed(activityId: string, digest: Option<Digest>): (ok: bool)
    ensures ok <==> digest.Some? && digest.value.activityId == Some(activityId)
                    && digest.value.activityStatus == Some(if activityId == "-1" then 0 else 2)
  {
    if digest.None? then false
    else if activityId == "-1" && digest.value.activityId == Some(activityId) && digest.value.activityStatus == Some(0) then true
    else if activityId != "-1" && digest.value.activityId == Some(activityId) && digest.value.activityStatus == Some(2) then true
    else false
  }

  /** A request as `request(command, body, expectedResponseType)` receives it. */
  datatype CommandCall = CommandCall(command: string, body: Option<string>, responseType: Option<string>)

  /** The body startActivity sends: `activityId=<id>:timestamp=<now>`. */
  function StartActivityBody(activityId: string, timestamp: nat): string
  {
    "activityId=" + activityId + ":timestamp=" + Decimal(timestamp)
  }

  /** startActivity(activityId) at time `timestamp`: an encoded `startactivity` request. */
  function StartActivity(activityId: string, timestamp: nat): (call: CommandCall)
    ensures call.command == "startactivity" && EffectiveResponseType(call.responseType) == "encoded"
    ensures ':' !in activityId && '=' !in activityId ==>
              Decode(call.body) == Some(map["activityId" := activityId, "timestamp" := Decimal(timestamp)])
  {
    var call := CommandCall("startactivity", Some(StartActivityBody(activityId, timestamp)), Some(DefaultResponseType));
    if ':' !in activityId && '=' !in activityId then StartActivityBodyDecodes(activityId, timestamp); call else call
  }

  /** turnOff: starting the imaginary activity `-1`. */
  function TurnOff(timestamp: nat): (call: CommandCall)
    ensures call.command == "startactivity" && EffectiveResponseType(call.responseType) == "encoded"
    ensures Decode(call.body) == Some(map["activityId" := "-1", "timestamp" := Decimal(timestamp)])
  {
    StartActivity("-1", timestamp)
  }

  /** getCurrentActivity: the `getCurrentActivity` request, with no body; its reply is decoded. */
  function GetCurrentActivity(): (call: CommandCall)
    ensures call.command == "getCurrentActivity" && call.body == None
    ensures EffectiveResponseType(call.responseType) == "encoded"
  {
    CommandCall("getCurrentActivity", None, None)
  }

  /** getAvailableCommands: the `config` request, with no body; its reply is parsed as JSON. */
  function GetAvailableCommands(): (call: CommandCall)
    ensures call.command == "config" && call.body == None
    ensures EffectiveResponseType(call.responseType) == "json"
  {
    CommandCall("config", None, Some("json"))
  }

  /** The response type `request` queues a handler with: the one given, else `encoded`. */
  function EffectiveResponseType(expectedResponseType: Option<string>): string
  {
    if expectedResponseType.Some? then expectedResponseType.value else DefaultResponseType
  }

  /**
   * The reply to getAvailableCommands resolves with its parsed `oa` text,
   * the replies to getCurrentActivity and startActivity with its decoded fields.
   */
  lemma CallPayloads(stanza: Stanza, activityId: string, timestamp: nat)
    ensures ResponseFor(EffectiveResponseType(GetAvailableCommands().responseType), stanza) == Json(stanza.oa)
    ensures ResponseFor(EffectiveResponseType(GetCurrentActivity().responseType), stanza) == Fields(Decode(stanza.oa))
    ensures ResponseFor(EffectiveResponseType(StartActivity(activityId, timestamp).responseType), stanza)
         == Fields(Decode(stanza.oa))
  {
  }

  /** `response.result` of a decoded reply. */
  function ResultField(fields: map<string, string>): Option<string>
  {
    if "result" in fields then Some(fields["result"]) else None
  }

  /**
   * isOff on the decoded reply to getCurrentActivity: `None` when the reply
   * decoded to `undefined` (reading `.result` of it throws), otherwise whether
   * its `result` is `-1` (a missing `result` is not).
   */
  function IsOff(response: Option<map<string, string>>): (off: Option<bool>)
    ensures off.None? <==> response.None?
    ensures off.Some? ==> (off.value <==> "result" in response.value && response.value["result"] == "-1")
  {
    if response.None? then None else Some(ResultField(response.value) == Some("-1"))
  }

  /** The body startActivity sends decodes, on the hub's side, to exactly its two fields. */
  lemma StartActivityBodyDecodes(activityId: string, timestamp: nat)
    requires ':' !in activityId && '=' !in activityId
    ensures Decode(Some(StartActivityBody(activityId, timestamp)))
         == Some(map["activityId" := activityId, "timestamp" := Decimal(timestamp)])
  {
    DecimalHasNoDelimiters(timestamp);
    StartActivityBodySegments(activityId, timestamp);
    DecodeTwoPairs("activityId", activityId, "timestamp", Decimal(timestamp));
  }

  lemma DecimalHasNoDelimiters(n: nat)
    ensures ':' !in Decimal(n) && '=' !in Decimal(n)
  {
    var s := Decimal(n);
    assert forall i :: 0 <= i < |s| ==> IsDigit(s[i]);
  }

  lemma StartActivityBodySegments(activityId: string, timestamp: nat)
    ensures StartActivityBody(activityId, timestamp)
         == ("activityId" + "=" + activityId) + [':'] + ("timestamp" + "=" + Decimal(timestamp))
  {
    var stamp := Decimal(timestamp);
    assert ":timestamp=" == [':'] + ("timestamp" + "=");
  }

  /**
   * turnOff is startActivity('-1'): it asks for activity `-1` and counts as
   * confirmed exactly by a digest reporting activity `-1` with status 0.
   */
  lemma TurnOffIsStartOfMinusOne(timestamp: nat, digest: Option<Digest>)
    ensures TurnOff(timestamp) == StartActivity("-1", timestamp)
    ensures StartActivityConfirmed("-1", digest) <==> digest == Some(Digest(Some("-1"), Some(0)))
  {
  }

  /** isOff on a `result=<id>` reply to getCurrentActivity holds exactly for `-1`. */
  lemma IsOffReadsResult(activityId: string)
    requires ':' !in activityId && '=' !in activityId
    ensures IsOff(Decode(Some("result=" + activityId))) == Some(activityId == "-1")
  {
    DecodeSinglePair("result", activityId);
    assert "result" + "=" + activityId == "result=" + activityId;
  }

  // ---------------------------------------------------------------------------
  // The client object

  class HarmonyClient {
    const hubHost: string
    const hubPort: Option<int>
    /** `_responseHandlerQueue` */
    var responseHandlerQueue: seq<Handler>
    /** Every stanza handed to the XMPP connection, in order. */
    var sent: seq<IqStanza>
    /** The JSON texts of the `stateDigest` events emitted, in order. */
    var stateDigests: seq<string>
    /** How many promises `request` has handed out; the next one gets this number. */
    var promisesIssued: nat
    /** Every `resolve` call made so far, in order. */
    ghost var resolved: seq<Resolution>

    /** The promise bookkeeping holds of the current state. */
    ghost predicate Valid()
      reads this
    {
      PromisesConsistent(responseHandlerQueue, resolved, promisesIssued)
    }

    constructor (host: string, port: Option<int>)
      ensures Valid()
      ensures hubHost == host && hubPort == port
      ensures responseHandlerQueue == [] && sent == [] && stateDigests == []
      ensures promisesIssued == 0 && resolved == []
    {
      hubHost, hubPort := host, port;
      responseHandlerQueue, sent, stateDigests := [], [], [];
      promisesIssued := 0;
      resolved := [];
    }

    /**
     * request(command, body, expectedResponseType, canHandleStanzaPredicate):
     * queues one handler at the end and sends the command stanza. The
     * response type defaults to `encoded` and the predicate to matching the
     * new stanza's id. Returns the number of the promise handed out.
     */
    method Request(command: string, body: Option<string>, expectedResponseType: Option<string>,
                   canHandleStanzaPredicate: Option<Stanza -> bool>, random: real) returns (promise: nat)
      requires Valid() && 0.0 <= random < 1.0
      modifies this
      ensures Valid()
      ensures var iq := BuildCommandIqStanza(command, body, random);
              var canHandle := if canHandleStanzaPredicate.Some? then Custom(canHandleStanzaPredicate.value)
                               else IdMatch(IdAttr(iq));
              var responseType := EffectiveResponseType(expectedResponseType);
              && responseHandlerQueue == old(responseHandlerQueue) + [Handler(canHandle, promise, responseType)]
              && sent == old(sent) + [iq]
      ensures promise == old(promisesIssued) && promisesIssued == old(promisesIssued) + 1
      ensures stateDigests == old(stateDigests) && resolved == old(resolved)
    {
      var iq := BuildCommandIqStanza(command, body, random);
      var id := IdAttr(iq);
      var canHandle := if canHandleStanzaPredicate.Some? then Custom(canHandleStanzaPredicate.value) else IdMatch(id);
      var responseType := EffectiveResponseType(expectedResponseType);
      QueueingKeepsPromisesConsistent(responseHandlerQueue, resolved, promisesIssued,
                                      Handler(canHandle, promisesIssued, responseType));
      promise := promisesIssued;
      responseHandlerQueue := responseHandlerQueue + [Handler(canHandle, promise, responseType)];
      promisesIssued := promisesIssued + 1;
      sent := sent + [iq];
    }

    /** send(command, body): sends the command stanza and queues nothing. */
    method Send(command: string, body: Option<string>, random: real)
      requires Valid() && 0.0 <= random < 1.0
      modifies this
      ensures Valid()
      ensures sent == old(sent) + [BuildCommandIqStanza(command, body, random)]
      ensures responseHandlerQueue == old(responseHandlerQueue) && promisesIssued == old(promisesIssued)
      ensures stateDigests == old(stateDigests) && resolved == old(resolved)
    {
      sent := sent + [BuildCommandIqStanza(command, body, random)];
    }

    /**
     * handleStanza(stanza): emits `stateDigest` for a state-digest event,
     * then makes one pass over the queue. `digestParses` says whether
     * `JSON.parse` accepts the event's text; when it does not, the parse
     * throws before anything is emitted or any handler is offered the
     * stanza, and `threw` is set.
     */
    method HandleStanza(stanza: Stanza, digestParses: bool) returns (threw: bool)
      requires Valid()
      modifies this
      ensures Valid()
      ensures threw <==> IsStateDigest(stanza) && !digestParses
      ensures threw ==>
                && stateDigests == old(stateDigests) && responseHandlerQueue == old(responseHandlerQueue)
                && resolved == old(resolved)
      ensures !threw ==>
                && stateDigests == old(stateDigests) + (if IsStateDigest(stanza) then [stanza.event.value.text] else [])
                && responseHandlerQueue == Survivors(old(responseHandlerQueue), stanza)
                && resolved == old(resolved) + Resolutions(Resolved(old(responseHandlerQueue), stanza), stanza)
      ensures sent == old(sent) && promisesIssued == old(promisesIssued)
    {
      if stanza.event.Some? && stanza.event.value.kind == Some(StateDigestNotify) {
        if !digestParses {
          return true;
        }
        stateDigests := stateDigests + [stanza.event.value.text];
      }
      threw := false;
      PassKeepsPromisesConsistent(responseHandlerQueue, resolved, promisesIssued, stanza);
      ResolveHandlers(stanza);
    }

    /**
     * The forEach pass of handleStanza: resolves and splices out each handler
     * whose predicate accepts the stanza. Splicing shifts the next handler
     * under the current index, so forEach never offers it the stanza.
     */
    method ResolveHandlers(stanza: Stanza)
      modifies this
      ensures responseHandlerQueue == Survivors(old(responseHandlerQueue), stanza)
      ensures resolved == old(resolved) + Resolutions(Resolved(old(responseHandlerQueue), stanza), stanza)
      ensures stateDigests == old(stateDigests) && sent == old(sent) && promisesIssued == old(promisesIssued)
    {
      var queue := responseHandlerQueue;
      ghost var queue0 := queue;
      ghost var added: seq<Resolution> := [];
      ghost var done := 0;
      ghost var kept: seq<Handler> := [];
      ghost var taken: seq<Handler> := [];
      var index := 0;
      PassStart(queue0, stanza);
      while index < |queue|
        invariant PassInvariant(queue0, stanza, done, kept, taken, queue, index)
        invariant added == Resolutions(taken, stanza)
        modifies {}
        decreases |queue| - index
      {
        var handler := queue[index];
        ghost var next, kept', taken' := PassStep(queue0, stanza, done, kept, taken, queue, index);
        if CanHandle(handler, stanza) {
          var response := Respond(handler.responseType, stanza);
          ResolutionsSnoc(taken, stanza, handler);
          added := added + [Resolution(handler.promise, response)];
          // splicing moves the next handler down to `index`, which forEach then skips
          queue := queue[..index] + queue[index + 1..];
        }
        done, kept, taken := next, kept', taken';
        index := index + 1;
      }
      PassEnd(queue0, stanza, done, kept, taken, queue, index);
      responseHandlerQueue := queue;
      resolved := resolved + added;
    }
  }

  /**
   * Where the forEach pass over `queue0` stands: it is `done` handlers into
   * `queue0`, has kept `kept` and resolved `taken`, the live queue is `queue`,
   * and forEach is at `index`.
   */
  ghost predicate PassInvariant(queue0: seq<Handler>, stanza: Stanza, done: nat, kept: seq<Handler>,
                                taken: seq<Handler>, queue: seq<Handler>, index: nat)
  {
    var mask := RemovalMask(queue0, stanza);
    && done <= |queue0|
    && kept == Select(queue0[..done], mask[..done], false)
    && taken == Select(queue0[..done], mask[..done], true)
    && queue == kept + queue0[done..]
    && (index == |kept| || (done == |queue0| && index == |queue| + 1))
    && (0 < done < |queue0| ==> !mask[done - 1])
  }

  lemma PassStart(queue0: seq<Handler>, stanza: Stanza)
    ensures PassInvariant(queue0, stanza, 0, [], [], queue0, 0)
  {
  }

  /** When forEach runs off the end, the live queue holds the survivors. */
  lemma PassEnd(queue0: seq<Handler>, stanza: Stanza, done: nat, kept: seq<Handler>,
                taken: seq<Handler>, queue: seq<Handler>, index: nat)
    requires PassInvariant(queue0, stanza, done, kept, taken, queue, index) && index >= |queue|
    ensures queue == Survivors(queue0, stanza) && taken == Resolved(queue0, stanza)
  {
    var mask := RemovalMask(queue0, stanza);
    assert done == |queue0|;
    assert queue0[..done] == queue0 && mask[..done] == mask;
  }

  /**
   * One iteration of forEach: the handler at `index` is removed exactly when
   * it accepts the stanza, and the pass advances past it (and past the
   * handler splicing shifts under `index`).
   */
  lemma PassStep(queue0: seq<Handler>, stanza: Stanza, done: nat, kept: seq<Handler>,
                 taken: seq<Handler>, queue: seq<Handler>, index: nat)
    returns (next: nat, kept': seq<Handler>, taken': seq<Handler>)
    requires PassInvariant(queue0, stanza, done, kept, taken, queue, index) && index < |queue|
    ensures CanHandle(queue[index], stanza) ==>
              && PassInvariant(queue0, stanza, next, kept', taken', queue[..index] + queue[index + 1..], index + 1)
              && taken' == taken + [queue[index]]
    ensures !CanHandle(queue[index], stanza) ==>
              PassInvariant(queue0, stanza, next, kept', taken', queue, index + 1) && taken' == taken
  {
    var mask := RemovalMask(queue0, stanza);
    assert done < |queue0|;
    MaskRule(queue0, stanza, done);
    if done + 1 < |queue0| {
      MaskRule(queue0, stanza, done + 1);
    }
    next, kept', taken' := SelectAdvance(queue0, mask, done, kept, taken);
  }

  /**
   * What a resolved handler passes to `resolve`: the raw `oa` text for
   * `json`, the decoded `oa` text for any other response type.
   */
  method Respond(responseType: string, stanza: Stanza) returns (response: Payload)
    ensures response == ResponseFor(responseType, stanza)
  {
    if responseType == "json" {
      response := Json(stanza.oa);
    } else {
      var fields := DecodeColonSeparatedResponse(stanza.oa);
      response := Fields(fields);
    }
  }

  /** The bookkeeping of Valid survives one pass over the queue. */
  lemma PassKeepsPromisesValid(resolved: seq<Resolution>, queue: seq<Handler>, stanza: Stanza)
    requires StrictlyIncreasing(PromisesOf(queue))
    ensures StrictlyIncreasing(PromisesOf(Survivors(queue, stanza)))
    ensures multiset(ResolvedPromises(resolved + Resolutions(Resolved(queue, stanza), stanza))
                     + PromisesOf(Survivors(queue, stanza)))
         == multiset(ResolvedPromises(resolved) + PromisesOf(queue))
  {
    var mask := RemovalMask(queue, stanza);
    PromisesOfSelect(queue, mask, false);
    PromisesOfSelect(queue, mask, true);
    SelectIncreasing(PromisesOf(queue), mask, false);
    SelectPartition(PromisesOf(queue), mask);
    var added := Resolutions(Resolved(queue, stanza), stanza);
    ResolvedPromisesOfResolutions(Resolved(queue, stanza), stanza);
    assert ResolvedPromises(resolved + added) == ResolvedPromises(resolved) + ResolvedPromises(added);
  }

  // ---------------------------------------------------------------------------
  // Promise bookkeeping

  /** Promise numbers of everything settled or still waiting. */
  function AllPromises(queue: seq<Handler>, resolved: seq<Resolution>): seq<nat>
  {
    ResolvedPromises(resolved) + PromisesOf(queue)
  }

  /**
   * Queued handlers are in the order their requests were made, each promise
   * is settled at most once and a settled promise is no longer queued, and
   * every promise number was handed out.
   */
  ghost predicate PromisesConsistent(queue: seq<Handler>, resolved: seq<Resolution>, issued: nat)
  {
    && StrictlyIncreasing(PromisesOf(queue))
    && Distinct(AllPromises(queue, resolved))
    && forall p :: p in multiset(AllPromises(queue, resolved)) ==> p < issued
  }

  /** Queueing a handler for a freshly issued promise keeps the bookkeeping consistent. */
  lemma QueueingKeepsPromisesConsistent(queue: seq<Handler>, resolved: seq<Resolution>, issued: nat, handler: Handler)
    requires PromisesConsistent(queue, resolved, issued) && handler.promise == issued
    ensures PromisesConsistent(queue + [handler], resolved, issued + 1)
  {
    var queued := PromisesOf(queue);
    assert PromisesOf(queue + [handler]) == queued + [issued];
    assert AllPromises(queue + [handler], resolved) == AllPromises(queue, resolved) + [issued];
    forall i | 0 <= i < |queued| ensures queued[i] < issued {
      assert queued[i] in multiset(AllPromises(queue, resolved));
    }
  }

  /** A pass over the queue keeps the bookkeeping consistent. */
  lemma PassKeepsPromisesConsistent(queue: seq<Handler>, resolved: seq<Resolution>, issued: nat, stanza: Stanza)
    requires PromisesConsistent(queue, resolved, issued)
    ensures PromisesConsistent(Survivors(queue, stanza), resolved + Resolutions(Resolved(queue, stanza), stanza), issued)
  {
    PassKeepsPromisesValid(resolved, queue, stanza);
    assert multiset(AllPromises(Survivors(queue, stanza), resolved + Resolutions(Resolved(queue, stanza), stanza)))
        == multiset(AllPromises(queue, resolved));
  }
}
