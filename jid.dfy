/** XMPP addresses as the Tinder library's JID class holds them, already split into parts. */
module Jids {
  import opened Wrappers

  /** node@domain/resource; the node and the resource are optional. */
  datatype Jid = Jid(node: Option<string>, domain: string, resource: Option<string>)

  /** JID.toBareJID: the address without its resource. */
  function ToBareJid(j: Jid): (r: string)
    ensures j.node.None? ==> r == j.domain
    ensures j.node.Some? ==> r == j.node.value + "@" + j.domain
  {
    match j.node
    case None => j.domain
    case Some(n) => n + "@" + j.domain
  }

  /** JID.getNode, with Java's null modelled as None. */
  function NodeOf(j: Jid): Option<string> { j.node }
}
