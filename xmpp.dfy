/**
 * The shapes of the XMPP stanzas the client exchanges with the hub, as plain
 * records rather than XML. An outbound request is an `<iq>` stanza (section
 * 8.2.3 of RFC 6120) whose `id` attribute (section 8.1.3 of RFC 6120)
 * correlates it with its reply.
 */
module Xmpp {
  import opened Wrappers
  import opened Strings

  /**
   * `<iq type=kind from=from id=id><query xmlns=xmlns>body</query></iq>`.
   * `from` and `body` are `None` where the caller passed `undefined`.
   */
  datatype IqStanza = IqStanza(kind: string, from: Option<string>, id: nat, xmlns: string, body: Option<string>)

  /** The `id` attribute of an outbound stanza as read back from it: the id in decimal. */
  function IdAttr(iq: IqStanza): (s: string)
    ensures |s| >= 1
  {
    Decimal(iq.id)
  }

  /** An `<event type=kind>text</event>` child. */
  datatype Event = Event(kind: Option<string>, text: string)

  /**
   * An inbound stanza, reduced to what the client reads from it: its `id`
   * attribute, its `event` child and the text of its `oa` child.
   */
  datatype Stanza = Stanza(id: Option<string>, event: Option<Event>, oa: Option<string>)
}
