/**
 * lib/login/hub.mjs: logging in to a hub. A guest session pairs with the hub
 * to obtain an identity token (getIdentity); a second session then logs in
 * under credentials derived from that token (loginWithIdentity); loginToHub
 * runs the two in sequence.
 */
module HubLogin {
  import opened Wrappers
  import opened Strings
  import opened Xmpp
  import opened Util

  /** The port loginToHub uses when none is given. */
  const DefaultHubPort: int := 5222

  datatype Credentials = Credentials(jid: string, password: string)

  /** An XMPP client opened against the hub (TLS is always disallowed). */
  datatype Connection = Connection(credentials: Credentials, host: string, port: int, disallowTls: bool)

  /** The fixed guest login used for pairing. */
  const GuestCredentials: Credentials := Credentials("guest@x.com/gatorade", "guest")

  /** The device name the pairing request announces. */
  const PairDevice: string := "harmonyjs#iOS6.0.1#iPhone"
  /** The body of the pairing request: `method=pair:name=harmonyjs#iOS6.0.1#iPhone`. */
  const PairBody: string := "method=pair:name=" + PairDevice
  const PairXmlns: string := "connect.logitech.com"
  const PairMime: string := "vnd.logitech.connect/vnd.logitech.pair"

  /** The message of the error getIdentity rejects with. */
  const IdentityError: string := "Did not retrieve identity."

  /** The suffix loginWithIdentity appends to the identity to form the jid. */
  const DurableJidSuffix: string := "@connect.logitech.com/gatorade"

  // ---------------------------------------------------------------------------
  // getIdentity

  /** The pairing request sent on `online`, from `guest`, under a fresh id. */
  function PairIq(random: real): (iq: IqStanza)
    requires 0.0 <= random < 1.0
    ensures iq.kind == "get" && iq.from == Some("guest") && iq.xmlns == PairXmlns && iq.body == Some(PairBody)
    ensures iq.id < IdSpace
  {
    BuildIqStanza("get", PairXmlns, PairMime, Some(PairBody), Some("guest"), random)
  }

  /** Decoded the way the hub reads it, the pairing body names the method and the device. */
  lemma PairBodyDecodes()
    ensures Decode(Some(PairBody)) == Some(map["method" := "pair", "name" := PairDevice])
  {
    assert ':' !in PairDevice && '=' !in PairDevice;
    DecodeTwoPairs("method", "pair", "name", PairDevice);
    var head := ("method" + "=" + "pair") + [':'];
    assert "method=pair:name=" == head + ("name" + "=");
    assert PairBody == head + ("name" + "=" + PairDevice);
  }

  /** What the `stanza` listener does with one inbound stanza. */
  datatype Reaction =
    | Ignore                    // not the reply awaited: nothing happens
    | Resolve(identity: string) // session ended, promise resolved with the identity
    | Reject(reason: string)    // session ended, promise rejected
    | Throw                     // the listener throws a TypeError before settling anything

  /**
   * The `stanza` listener, given the awaited id (`None` before `online` has
   * fired, when `iqId.toString()` throws). A stanza with another id is
   * ignored; the awaited reply is decoded, and an absent or empty body
   * decodes to `undefined`, whose `.identity` throws; a truthy `identity`
   * resolves, anything else rejects.
   */
  function ReactToStanza(iqId: Option<string>, stanza: Stanza): (r: Reaction)
    ensures r.Resolve? ==> r.identity != "" && ':' !in r.identity && '=' !in r.identity
    ensures r.Reject? ==> r.reason == IdentityError
  {
    if iqId.None? then Throw
    else if stanza.id != Some(iqId.value) then Ignore
    else
      var response := Decode(stanza.oa);
      if response.None? then Throw
      else if "identity" in response.value && response.value["identity"] != "" then
        DecodeHasNoDelimiters(stanza.oa.value);
        Resolve(response.value["identity"])
      else Reject(IdentityError)
  }

  /** Before `online` every stanza makes the listener throw, whatever its id. */
  lemma StanzaBeforeOnlineThrows(stanza: Stanza)
    ensures ReactToStanza(None, stanza) == Throw
  {
  }

  /** A stanza without the awaited id is ignored. */
  lemma ForeignStanzaIgnored(awaited: string, stanza: Stanza)
    requires stanza.id != Some(awaited)
    ensures ReactToStanza(Some(awaited), stanza) == Ignore
  {
  }

  /** The awaited reply with no body, or an empty one, makes the listener throw. */
  lemma EmptyReplyThrows(awaited: string, stanza: Stanza)
    requires stanza.id == Some(awaited) && (stanza.oa.None? || stanza.oa == Some(""))
    ensures ReactToStanza(Some(awaited), stanza) == Throw
  {
  }

  /** The awaited reply `identity=<token>` resolves with exactly that token. */
  lemma IdentityReplyResolves(awaited: string, identity: string, stanza: Stanza)
    requires identity != "" && ':' !in identity && '=' !in identity
    requires stanza.id == Some(awaited) && stanza.oa == Some("identity=" + identity)
    ensures ReactToStanza(Some(awaited), stanza) == Resolve(identity)
  {
    DecodeSinglePair("identity", identity);
    assert "identity" + "=" + identity == "identity=" + identity;
  }

  /** The awaited reply carrying well-formed fields but no `identity` field rejects. */
  lemma MissingIdentityRejects(awaited: string, pairs: seq<(string, string)>, stanza: Stanza)
    requires |pairs| >= 1 && Encodable(pairs) && DistinctKeys(pairs)
    requires forall i :: 0 <= i < |pairs| ==> pairs[i].0 != "identity"
    requires stanza.id == Some(awaited) && stanza.oa == Some(EncodeFields(pairs))
    ensures ReactToStanza(Some(awaited), stanza) == Reject(IdentityError)
  {
    DecodeEncodeFields(pairs);
  }

  /** The awaited reply whose `identity` field is empty rejects as well. */
  lemma EmptyIdentityRejects(awaited: string, stanza: Stanza)
    requires stanza.id == Some(awaited) && stanza.oa == Some("identity=")
    ensures ReactToStanza(Some(awaited), stanza) == Reject(IdentityError)
  {
    DecodeSinglePair("identity", "");
    assert "identity" + "=" + "" == "identity=";
  }

  /**
   * The awaited reply carrying a non-empty `identity` among other well-formed
   * fields resolves with that identity.
   */
  lemma IdentityAmongFieldsResolves(awaited: string, pairs: seq<(string, string)>, i: nat, stanza: Stanza)
    requires |pairs| >= 1 && Encodable(pairs) && DistinctKeys(pairs)
    requires i < |pairs| && pairs[i].0 == "identity" && pairs[i].1 != ""
    requires stanza.id == Some(awaited) && stanza.oa == Some(EncodeFields(pairs))
    ensures ReactToStanza(Some(awaited), stanza) == Resolve(pairs[i].1)
  {
    DecodeEncodeFields(pairs);
  }

  /** The awaited reply whose `identity` field is empty rejects, whatever fields come with it. */
  lemma EmptyIdentityAmongFieldsRejects(awaited: string, pairs: seq<(string, string)>, i: nat, stanza: Stanza)
    requires |pairs| >= 1 && Encodable(pairs) && DistinctKeys(pairs)
    requires i < |pairs| && pairs[i].0 == "identity" && pairs[i].1 == ""
    requires stanza.id == Some(awaited) && stanza.oa == Some(EncodeFields(pairs))
    ensures ReactToStanza(Some(awaited), stanza) == Reject(IdentityError)
  {
    DecodeEncodeFields(pairs);
  }

  /** A reaction that ends the guest session and settles the promise. */
  predicate Settles(r: Reaction)
  {
    r.Resolve? || r.Reject?
  }

  /**
   * The state getIdentity keeps for one guest session: the connection it
   * opened, the awaited id, the stanzas sent, whether `end` was called and
   * how its promise settled.
   */
  class GuestSession {
    const connection: Connection
    var iqId: Option<string>
    var sent: seq<IqStanza>
    var ended: bool
    var settled: Option<Reaction>

    /**
     * Every stanza sent is a pairing request, the awaited id is the id of
     * the last one, and the session was ended exactly when the promise
     * settled, by a resolve or a reject.
     */
    ghost predicate Valid()
      reads this
    {
      && connection.credentials == GuestCredentials && connection.disallowTls
      && (forall i :: 0 <= i < |sent| ==>
            sent[i].kind == "get" && sent[i].from == Some("guest") && sent[i].xmlns == PairXmlns
            && sent[i].body == Some(PairBody) && sent[i].id < IdSpace)
      && (iqId.Some? <==> |sent| > 0)
      && (|sent| > 0 ==> iqId == Some(IdAttr(sent[|sent| - 1])))
      && (ended <==> settled.Some?)
      && (settled.Some? ==> Settles(settled.value))
    }

    /** getIdentity(hubhost, hubport): opens the guest connection. */
    constructor (host: string, port: int)
      ensures Valid()
      ensures connection == Connection(GuestCredentials, host, port, true)
      ensures iqId == None && sent == [] && !ended && settled == None
    {
      connection := Connection(GuestCredentials, host, port, true);
      iqId, sent, ended, settled := None, [], false, None;
    }

    /** The `online` listener: sends the pairing request and awaits its id. */
    method OnOnline(random: real)
      requires Valid() && 0.0 <= random < 1.0
      modifies this
      ensures Valid()
      ensures sent == old(sent) + [PairIq(random)] && iqId == Some(IdAttr(PairIq(random)))
      ensures ended == old(ended) && settled == old(settled)
    {
      var iq := PairIq(random);
      iqId := Some(IdAttr(iq));
      sent := sent + [iq];
    }

    /**
     * The `stanza` listener. A settling reaction ends the session; only the
     * first settlement takes effect on the promise.
     */
    method OnStanza(stanza: Stanza) returns (reaction: Reaction)
      requires Valid()
      modifies this
      ensures Valid()
      ensures reaction == ReactToStanza(old(iqId), stanza)
      ensures iqId == old(iqId) && sent == old(sent)
      ensures ended == (old(ended) || Settles(reaction))
      ensures settled == (if old(settled).None? && Settles(reaction) then Some(reaction) else old(settled))
    {
      if iqId.None? {
        return Throw;
      }
      if stanza.id != Some(iqId.value) {
        return Ignore;
      }
      var response := DecodeColonSeparatedResponse(stanza.oa);
      if response.None? {
        return Throw;
      }
      if "identity" in response.value && response.value["identity"] != "" {
        reaction := Resolve(response.value["identity"]);
      } else {
        reaction := Reject(IdentityError);
      }
      ended := true;
      if settled.None? {
        settled := Some(reaction);
      }
    }
  }

  // ---------------------------------------------------------------------------
  // loginWithIdentity

  /** The credentials of the durable login: `<identity>@connect.logitech.com/gatorade` and the identity. */
  function IdentityCredentials(identity: string): (c: Credentials)
    ensures c.password == identity
  {
    Credentials(identity + DurableJidSuffix, identity)
  }

  /** The jid alone determines the identity. */
  lemma {:induction false} DurableJidDeterminesIdentity(a: string, b: string)
    requires IdentityCredentials(a).jid == IdentityCredentials(b).jid
    ensures a == b
  {
    var jid := IdentityCredentials(a).jid;
    assert |a| == |b|;
    assert jid[..|a|] == a;
    assert jid[..|b|] == b;
  }

  /** No identity yields the guest credentials. */
  lemma DurableLoginIsNeverGuest(identity: string)
    ensures IdentityCredentials(identity) != GuestCredentials
  {
  }

  /** loginWithIdentity(identity, hubhost, hubport): the connection it opens. */
  function LoginWithIdentity(identity: string, host: string, port: int): (c: Connection)
    ensures c.credentials.password == identity && c.host == host && c.port == port
  {
    Connection(IdentityCredentials(identity), host, port, true)
  }

  // ---------------------------------------------------------------------------
  // loginToHub

  /** `hubport = 5222`: the default applies when no port is given. */
  function EffectivePort(hubport: Option<int>): int
  {
    if hubport.Some? then hubport.value else DefaultHubPort
  }

  /** Where loginToHub's promise stands; when it resolves, it resolves with nothing. */
  datatype LoginResult = Pending | Failed(reason: string) | Done

  /** The connections loginToHub has opened, in order, and its result. */
  datatype Login = Login(connections: seq<Connection>, result: LoginResult)

  /**
   * loginToHub(hubhost, hubport), given how the guest session settled (if it
   * has) and whether the durable connection has come online: the guest
   * session comes first, the durable login only after an identity, both
   * against the same host and port.
   */
  function LoginToHub(host: string, hubport: Option<int>, guestSettled: Option<Reaction>, durableOnline: bool): (r: Login)
    requires guestSettled.Some? ==> Settles(guestSettled.value)
    ensures 1 <= |r.connections| <= 2
    ensures r.connections[0] == Connection(GuestCredentials, host, EffectivePort(hubport), true)
    ensures forall i :: 0 <= i < |r.connections| ==> r.connections[i].host == host && r.connections[i].port == EffectivePort(hubport)
    ensures |r.connections| == 2 <==> guestSettled.Some? && guestSettled.value.Resolve?
    ensures |r.connections| == 2 ==> r.connections[1].credentials == IdentityCredentials(guestSettled.value.identity)
    ensures r.result.Done? <==> |r.connections| == 2 && durableOnline
    ensures r.result.Failed? <==> guestSettled.Some? && guestSettled.value.Reject?
    ensures r.result.Failed? ==> r.result.reason == guestSettled.value.reason
  {
    var port := EffectivePort(hubport);
    var guest := Connection(GuestCredentials, host, port, true);
    match guestSettled
    case None => Login([guest], Pending)
    case Some(reaction) =>
      if reaction.Resolve? then
        Login([guest, LoginWithIdentity(reaction.identity, host, port)], if durableOnline then Done else Pending)
      else Login([guest], Failed(reaction.reason))
  }

  /**
   * The whole pairing exchange: after `online`, the reply carrying the pair
   * request's id and `identity=<token>` settles the session with that
   * token, and loginToHub then logs in with the derived credentials.
   */
  method PairingExchange(host: string, hubport: Option<int>, random: real, identity: string)
    returns (session: GuestSession, login: Login)
    requires 0.0 <= random < 1.0
    requires identity != "" && ':' !in identity && '=' !in identity
    ensures session.ended && session.settled == Some(Resolve(identity))
    ensures login.connections
         == [Connection(GuestCredentials, host, EffectivePort(hubport), true),
             Connection(IdentityCredentials(identity), host, EffectivePort(hubport), true)]
    ensures login.result == Done
  {
    session := new GuestSession(host, EffectivePort(hubport));
    session.OnOnline(random);
    var reply := Stanza(Some(IdAttr(PairIq(random))), None, Some("identity=" + identity));
    IdentityReplyResolves(IdAttr(PairIq(random)), identity, reply);
    var reaction := session.OnStanza(reply);
    login := LoginToHub(host, hubport, session.settled, true);
  }
}
