/**
 * XMPPComponent: an external component (XEP-0114) that answers IQ get and
 * set requests through handlers keyed by the namespace of the `query`
 * payload, and correlates IQ replies with the requests it sent through
 * one-shot callbacks keyed by `id@bare-JID`. Sending, the 5-second wait of
 * syncSendPacket and the handlers' own work are outside the model: sends
 * are recorded in `sent`, a callback's invocation in `invoked`, and a
 * handler's answer is named by the handler that gives it.
 */
module Component {
  import opened Wrappers
  import opened Xml
  import opened Jids

  /** An IQ as the component reads it: id, addresses (null is None) and the element. */
  datatype Stanza = Stanza(id: Option<string>, from: Option<Jid>, to: Option<Jid>, element: Element)

  /** A QueryHandler, identified by its name, serving one namespace. */
  datatype QueryHandler = QueryHandler(namespace: string, name: string)

  /** Why `handle` answers with an error IQ. */
  datatype ErrorReason = NoQueryElement | NoHandlerFor(namespace: string)

  /** What `handle` returns: an error IQ for the request, or the chosen handler's answer to it. */
  datatype Reply = ErrorIq(request: Stanza, reason: ErrorReason) | Answered(handler: QueryHandler, request: Stanza)

  /** Dereferencing an absent `from` or `to` address. */
  datatype ComponentError = NullPointer

  /** A String concatenated with a possibly-null id: Java writes null as "null". */
  function IdText(id: Option<string>): (r: string)
    ensures id.Some? ==> r == id.value
    ensures id.None? ==> r == "null"
  {
    match id
    case Some(s) => s
    case None => "null"
  }

  /** The key a callback is registered and looked up under: id, "@", then the bare JID. */
  function CallbackKey(id: Option<string>, bareJid: string): (r: string)
    ensures |r| == |IdText(id)| + 1 + |bareJid|
  {
    IdText(id) + "@" + bareJid
  }

  /** The key splits back into the id, the '@' and the bare JID. */
  lemma CallbackKeyParts(id: Option<string>, bareJid: string)
    ensures var r := CallbackKey(id, bareJid);
      r[..|IdText(id)|] == IdText(id) && r[|IdText(id)|] == '@' && r[|IdText(id)| + 1..] == bareJid
  {
  }

  /** Two keys agree exactly when the ids and the bare JIDs do, for ids without '@'. */
  lemma CallbackKeyInjective(id1: Option<string>, bare1: string, id2: Option<string>, bare2: string)
    requires '@' !in IdText(id1) && '@' !in IdText(id2)
    ensures CallbackKey(id1, bare1) == CallbackKey(id2, bare2) <==> IdText(id1) == IdText(id2) && bare1 == bare2
  {
    var k1, k2 := CallbackKey(id1, bare1), CallbackKey(id2, bare2);
    var n1, n2 := |IdText(id1)|, |IdText(id2)|;
    CallbackKeyParts(id1, bare1);
    CallbackKeyParts(id2, bare2);
    if k1 == k2 {
      assert n1 == n2;
      assert IdText(id1) == k1[..n1];
    }
  }

  /** A registered key is never the bare id: it is always longer. */
  lemma CallbackKeyIsNotTheId(id: Option<string>, bareJid: string)
    ensures CallbackKey(id, bareJid) != IdText(id)
  {
    assert |CallbackKey(id, bareJid)| > |IdText(id)|;
  }

  /**
   * handle: the first `query` child's namespace picks the handler from
   * `handlers`; no `query` child, or no handler for that namespace, gives
   * an error IQ.
   */
  function Handle(iq: Stanza, handlers: map<string, QueryHandler>): (r: Reply)
    ensures r.request == iq
    ensures r == ErrorIq(iq, NoQueryElement) <==> Child(iq.element, "query").None?
    ensures r.ErrorIq? && r.reason.NoHandlerFor? <==>
      Child(iq.element, "query").Some? && Child(iq.element, "query").value.ns !in handlers
    ensures r.Answered? ==>
      Child(iq.element, "query").Some? && r.handler == handlers[Child(iq.element, "query").value.ns]
  {
    match Child(iq.element, "query")
    case None => ErrorIq(iq, NoQueryElement)
    case Some(query) =>
      if query.ns in handlers then Answered(handlers[query.ns], iq)
      else ErrorIq(iq, NoHandlerFor(query.ns))
  }

  /** A handler added for a namespace answers every request whose query is in it, whatever was there before. */
  lemma LaterHandlerWins(iq: Stanza, handlers: map<string, QueryHandler>, h: QueryHandler)
    requires Child(iq.element, "query").Some? && Child(iq.element, "query").value.ns == h.namespace
    ensures Handle(iq, handlers[h.namespace := h]) == Answered(h, iq)
  {
  }

  /** A handler added for another namespace does not change how a request is answered. */
  lemma OtherHandlerIrrelevant(iq: Stanza, handlers: map<string, QueryHandler>, h: QueryHandler)
    requires Child(iq.element, "query").Some? ==> Child(iq.element, "query").value.ns != h.namespace
    ensures Handle(iq, handlers[h.namespace := h]) == Handle(iq, handlers)
  {
  }

  /** The finally-clause of syncSendPacket as written: removes the entry keyed by the bare id. */
  function RemoveByIdAsWritten(callbacks: map<string, PacketCallback>, id: Option<string>): (r: map<string, PacketCallback>)
    ensures id.None? ==> r == callbacks
    ensures forall k :: k in r <==> k in callbacks && (id.None? || k != id.value)
  {
    match id
    case None => callbacks
    case Some(s) => callbacks - {s}
  }

  /**
   * The entry syncSendPacket registers under `id@bare` survives its own
   * cleanup when no reply removed it: the cleanup looks for `id` alone.
   */
  lemma UnansweredCallbackLeaks(callbacks: map<string, PacketCallback>, id: Option<string>, bareJid: string, waiter: PacketCallback)
    requires CallbackKey(id, bareJid) in callbacks && callbacks[CallbackKey(id, bareJid)] == waiter
    ensures var key := CallbackKey(id, bareJid);
      key in RemoveByIdAsWritten(callbacks, id) && RemoveByIdAsWritten(callbacks, id)[key] == waiter
  {
    CallbackKeyIsNotTheId(id, bareJid);
  }

  /** A PacketCallback object; its identity is all the model needs of it. */
  class PacketCallback {
    constructor ()
    {
    }
  }

  class XmppComponent {
    const jid: string
    const password: string
    const server: string
    const port: int
    var getHandlers: map<string, QueryHandler>
    var setHandlers: map<string, QueryHandler>
    var packetCallbacks: map<string, PacketCallback>
    /** Every callback invocation, in order, with the packet handed to it. */
    var invoked: seq<(PacketCallback, Stanza)>
    /** Every packet handed to `send`, in order. */
    var sent: seq<Stanza>

    constructor (jid: string, password: string, server: string, port: int)
      ensures this.jid == jid && this.password == password && this.server == server && this.port == port
      ensures getHandlers == map[] && setHandlers == map[] && packetCallbacks == map[]
      ensures invoked == [] && sent == []
    {
      this.jid := jid;
      this.password := password;
      this.server := server;
      this.port := port;
      getHandlers := map[];
      setHandlers := map[];
      packetCallbacks := map[];
      invoked := [];
      sent := [];
    }

    /** addSetHandler: the handler serves set requests in its namespace, replacing any earlier one. */
    method AddSetHandler(h: QueryHandler)
      modifies this
      ensures setHandlers == old(setHandlers)[h.namespace := h]
      ensures getHandlers == old(getHandlers) && packetCallbacks == old(packetCallbacks)
      ensures invoked == old(invoked) && sent == old(sent)
    {
      setHandlers := setHandlers[h.namespace := h];
    }

    /** addGetHandler: the handler serves get requests in its namespace, replacing any earlier one. */
    method AddGetHandler(h: QueryHandler)
      modifies this
      ensures getHandlers == old(getHandlers)[h.namespace := h]
      ensures setHandlers == old(setHandlers) && packetCallbacks == old(packetCallbacks)
      ensures invoked == old(invoked) && sent == old(sent)
    {
      getHandlers := getHandlers[h.namespace := h];
    }

    /** handleIQSet: answered from the set table alone. */
    method HandleIqSet(iq: Stanza) returns (r: Reply)
      ensures r == Handle(iq, setHandlers)
    {
      r := Handle(iq, setHandlers);
    }

    /** handleIQGet: answered from the get table alone. */
    method HandleIqGet(iq: Stanza) returns (r: Reply)
      ensures r == Handle(iq, getHandlers)
    {
      r := Handle(iq, getHandlers);
    }

    /**
     * handleIQResult: the callback registered under the reply's id and the
     * sender's bare JID is handed the reply once and then unregistered; a
     * reply nobody waits for is dropped and changes nothing.
     */
    method HandleIqResult(iq: Stanza) returns (r: Outcome<ComponentError>)
      modifies this
      ensures r.Fail? <==> iq.from.None?
      ensures r.Fail? ==> packetCallbacks == old(packetCallbacks) && invoked == old(invoked)
      ensures r.Pass? ==>
        var key := CallbackKey(iq.id, ToBareJid(iq.from.value));
        && (key in old(packetCallbacks) ==>
              invoked == old(invoked) + [(old(packetCallbacks)[key], iq)] && packetCallbacks == old(packetCallbacks) - {key})
        && (key !in old(packetCallbacks) ==> invoked == old(invoked) && packetCallbacks == old(packetCallbacks))
      ensures getHandlers == old(getHandlers) && setHandlers == old(setHandlers) && sent == old(sent)
    {
      if iq.from.None? {
        return Fail(NullPointer);
      }
      var key := CallbackKey(iq.id, ToBareJid(iq.from.value));
      if key in packetCallbacks {
        invoked := invoked + [(packetCallbacks[key], iq)];
        packetCallbacks := packetCallbacks - {key};
      }
      r := Pass;
    }

    /** handleIQError: exactly what handleIQResult does. */
    method HandleIqError(iq: Stanza) returns (r: Outcome<ComponentError>)
      modifies this
      ensures r.Fail? <==> iq.from.None?
      ensures r.Fail? ==> packetCallbacks == old(packetCallbacks) && invoked == old(invoked)
      ensures r.Pass? ==>
        var key := CallbackKey(iq.id, ToBareJid(iq.from.value));
        && (key in old(packetCallbacks) ==>
              invoked == old(invoked) + [(old(packetCallbacks)[key], iq)] && packetCallbacks == old(packetCallbacks) - {key})
        && (key !in old(packetCallbacks) ==> invoked == old(invoked) && packetCallbacks == old(packetCallbacks))
      ensures getHandlers == old(getHandlers) && setHandlers == old(setHandlers) && sent == old(sent)
    {
      r := HandleIqResult(iq);
    }

    /** addPacketCallback: registers the callback under the packet's id and addressee's bare JID. */
    method AddPacketCallback(packet: Stanza, callback: PacketCallback) returns (r: Outcome<ComponentError>)
      modifies this
      ensures r.Fail? <==> packet.to.None?
      ensures r.Fail? ==> packetCallbacks == old(packetCallbacks)
      ensures r.Pass? ==> packetCallbacks == old(packetCallbacks)[CallbackKey(packet.id, ToBareJid(packet.to.value)) := callback]
      ensures getHandlers == old(getHandlers) && setHandlers == old(setHandlers)
      ensures invoked == old(invoked) && sent == old(sent)
    {
      if packet.to.None? {
        return Fail(NullPointer);
      }
      packetCallbacks := packetCallbacks[CallbackKey(packet.id, ToBareJid(packet.to.value)) := callback];
      r := Pass;
    }

    /**
     * The part of syncSendPacket the two versions share: a fresh waiter is
     * registered under the request's key, the request is sent, and the reply
     * that arrives in time (if any) goes through handleIQResult. Returns the
     * reply the waiter was handed, or None.
     */
    method SendAndAwait(packet: Stanza, reply: Option<Stanza>) returns (r: Result<Option<Stanza>, ComponentError>, waiter: PacketCallback)
      modifies this
      ensures r.Err? <==> packet.to.None?
      ensures r.Err? ==> packetCallbacks == old(packetCallbacks) && sent == old(sent) && invoked == old(invoked)
      ensures r.Ok? ==> fresh(waiter) && sent == old(sent) + [packet]
      ensures r.Ok? ==>
        packetCallbacks == AfterReply(old(packetCallbacks)[CallbackKey(packet.id, ToBareJid(packet.to.value)) := waiter], reply)
      ensures r.Ok? ==> (r.value.Some? <==> Delivered(packet, reply))
      ensures r.Ok? && r.value.Some? ==> r.value == reply && invoked == old(invoked) + [(waiter, reply.value)]
      ensures getHandlers == old(getHandlers) && setHandlers == old(setHandlers)
    {
      waiter := new PacketCallback();
      if packet.to.None? {
        return Err(NullPointer), waiter;
      }
      var key := CallbackKey(packet.id, ToBareJid(packet.to.value));
      packetCallbacks := packetCallbacks[key := waiter];
      sent := sent + [packet];
      if reply.Some? {
        var _ := HandleIqResult(reply.value);
      }
      if Delivered(packet, reply) {
        r := Ok(reply);
      } else {
        r := Ok(None);
      }
    }

    /**
     * syncSendPacket as written: the cleanup removes the entry keyed by the
     * request's id, not the `id@bare` key it registered, so an unanswered
     * request leaves its waiter in the table.
     */
    method SyncSendPacketAsWritten(packet: Stanza, reply: Option<Stanza>) returns (r: Result<Option<Stanza>, ComponentError>)
      modifies this
      ensures r.Err? <==> packet.to.None?
      ensures r.Err? ==> packetCallbacks == old(packetCallbacks) && sent == old(sent)
      ensures r.Ok? ==> sent == old(sent) + [packet] && (r.value.Some? <==> Delivered(packet, reply))
      ensures r.Ok? && r.value.Some? ==> r.value == reply
      ensures r.Ok? && r.value.Some? ==>
        packetCallbacks == RemoveByIdAsWritten(AfterReply(old(packetCallbacks), reply), packet.id)
      ensures r.Ok? && r.value.None? ==>
        var key := CallbackKey(packet.id, ToBareJid(packet.to.value));
        && key in packetCallbacks && fresh(packetCallbacks[key])
        && packetCallbacks - {key} == RemoveByIdAsWritten(AfterReply(old(packetCallbacks), reply), packet.id) - {key}
      ensures getHandlers == old(getHandlers) && setHandlers == old(setHandlers)
    {
      var waiter;
      ghost var before := packetCallbacks;
      r, waiter := SendAndAwait(packet, reply);
      if r.Ok? {
        var key := CallbackKey(packet.id, ToBareJid(packet.to.value));
        ReplyThenCleanup(before, key, waiter, reply);
        if r.value.None? {
          UndeliveredKeepsWaiter(before, key, waiter, reply);
          UnansweredCallbackLeaks(packetCallbacks, packet.id, ToBareJid(packet.to.value), waiter);
        } else {
          DeliveredReplyRemovesKey(before, key, waiter, reply);
        }
        RemoveByIdThenKey(packetCallbacks, AfterReply(before, reply), packet.id, key);
        packetCallbacks := RemoveByIdAsWritten(packetCallbacks, packet.id);
      }
    }

    /**
     * syncSendPacket as evidently intended: the cleanup removes the key it
     * registered, so afterwards the table has lost only that key and the
     * entry the reply resolved, whether or not a reply came.
     */
    method SyncSendPacket(packet: Stanza, reply: Option<Stanza>) returns (r: Result<Option<Stanza>, ComponentError>)
      modifies this
      ensures r.Err? <==> packet.to.None?
      ensures r.Err? ==> packetCallbacks == old(packetCallbacks) && sent == old(sent)
      ensures r.Ok? ==> sent == old(sent) + [packet]
      ensures r.Ok? ==> (r.value.Some? <==> Delivered(packet, reply))
      ensures r.Ok? && r.value.Some? ==> r.value == reply
      ensures r.Ok? ==> packetCallbacks == AfterReply(old(packetCallbacks), reply) - {CallbackKey(packet.id, ToBareJid(packet.to.value))}
      ensures getHandlers == old(getHandlers) && setHandlers == old(setHandlers)
    {
      var waiter;
      ghost var before := packetCallbacks;
      r, waiter := SendAndAwait(packet, reply);
      if r.Ok? {
        var key := CallbackKey(packet.id, ToBareJid(packet.to.value));
        ReplyThenCleanup(before, key, waiter, reply);
        packetCallbacks := packetCallbacks - {key};
      }
    }
  }

  /** The table after handleIQResult saw `reply`: the entry under the reply's key is gone. */
  function AfterReply(callbacks: map<string, PacketCallback>, reply: Option<Stanza>): (r: map<string, PacketCallback>)
    ensures forall k :: k in r <==> k in callbacks && !(reply.Some? && reply.value.from.Some? && k == CallbackKey(reply.value.id, ToBareJid(reply.value.from.value)))
    ensures forall k :: k in r ==> r[k] == callbacks[k]
  {
    if reply.Some? && reply.value.from.Some? then callbacks - {CallbackKey(reply.value.id, ToBareJid(reply.value.from.value))}
    else callbacks
  }

  /** Registering under `key`, seeing the reply and removing `key` leaves only the reply's entry removed besides. */
  lemma ReplyThenCleanup(callbacks: map<string, PacketCallback>, key: string, waiter: PacketCallback, reply: Option<Stanza>)
    ensures AfterReply(callbacks[key := waiter], reply) - {key} == AfterReply(callbacks, reply) - {key}
  {
  }

  /** A reply for `key` removes the waiter registered under `key` together with whatever was there before. */
  lemma DeliveredReplyRemovesKey(callbacks: map<string, PacketCallback>, key: string, waiter: PacketCallback, reply: Option<Stanza>)
    requires reply.Some? && reply.value.from.Some? && CallbackKey(reply.value.id, ToBareJid(reply.value.from.value)) == key
    ensures AfterReply(callbacks[key := waiter], reply) == AfterReply(callbacks, reply)
  {
  }

  /** Two tables that agree outside `key` still agree outside `key` once the id's entry is removed from both. */
  lemma RemoveByIdThenKey(a: map<string, PacketCallback>, b: map<string, PacketCallback>, id: Option<string>, key: string)
    requires a - {key} == b - {key}
    ensures RemoveByIdAsWritten(a, id) - {key} == RemoveByIdAsWritten(b, id) - {key}
  {
    match id
    case None =>
    case Some(s) =>
      assert RemoveByIdAsWritten(a, id) - {key} == a - {key} - {s};
      assert RemoveByIdAsWritten(b, id) - {key} == b - {key} - {s};
  }

  /** A reply that is not for `key` leaves the waiter registered under `key` in place. */
  lemma UndeliveredKeepsWaiter(callbacks: map<string, PacketCallback>, key: string, waiter: PacketCallback, reply: Option<Stanza>)
    requires !(reply.Some? && reply.value.from.Some? && CallbackKey(reply.value.id, ToBareJid(reply.value.from.value)) == key)
    ensures key in AfterReply(callbacks[key := waiter], reply) && AfterReply(callbacks[key := waiter], reply)[key] == waiter
  {
  }

  /** The reply reaches the waiter of `packet`: it comes from the addressee's bare JID with the same id. */
  predicate Delivered(packet: Stanza, reply: Option<Stanza>)
  {
    && packet.to.Some? && reply.Some? && reply.value.from.Some?
    && CallbackKey(reply.value.id, ToBareJid(reply.value.from.value)) == CallbackKey(packet.id, ToBareJid(packet.to.value))
  }
}
