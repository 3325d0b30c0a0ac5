/**
 * The packet reader of an XMPP client connection: it opens the stream
 * (reading the stream header), then reads top-level elements one after the
 * other and dispatches each by its tag, classifying IQs by their payload,
 * acting on stream features (section 4.3 and the STARTTLS policy of section
 * 5 of RFC 6120), SASL frames (section 6.4 of RFC 6120), stream errors
 * (section 4.9 of RFC 6120) and compression frames.
 *
 * The connection the reader reports to is not part of this model: every
 * call into it is an event appended to the reader's log, and what the
 * connection answers (whether it is secure, whether its socket is closed)
 * is an oracle over that log.
 */
module PacketReader {
  import opened Wrappers
  import opened Xml
  import PacketParserUtils
  import Sasl

  const CLIENT_NS := "jabber:client"
  const TLS_NS := "urn:ietf:params:xml:ns:xmpp-tls"
  const BIND_NS := "urn:ietf:params:xml:ns:xmpp-bind"
  const SESSION_NS := "urn:ietf:params:xml:ns:xmpp-session"
  const ROSTER_VER_NS := "urn:xmpp:features:rosterver"
  const CAPS_NS := "http://jabber.org/protocol/caps"
  const COMPRESS_FEATURE_NS := "http://jabber.org/features/compress"
  const COMPRESS_NS := "http://jabber.org/protocol/compress"
  const REGISTER_FEATURE_NS := "http://jabber.org/features/iq-register"
  const PING_NS := "urn:xmpp:ping"
  const ROSTER_NS := "jabber:iq:roster"
  const AUTH_NS := "jabber:iq:auth"
  const REGISTER_NS := "jabber:iq:register"

  /**
   * How a namespace check is read: as the code compares (a dom4j Namespace
   * against a String, which never holds) or by URI, as intended.
   */
  datatype Reading = AsWritten | AsIntended

  /** `el.getNamespace().equals(uri)`, or the URI comparison it stands for. */
  predicate InNamespace(reading: Reading, el: Element, uri: string)
  {
    match reading
    case AsWritten => JavaEquals(NamespaceObject(el.ns), StringObject(uri))
    case AsIntended => el.ns == uri
  }

  /** The first child called `name`, when the namespace check accepts it. */
  function Offered(reading: Reading, doc: Element, name: string, uri: string): (r: Option<Element>)
    ensures reading.AsWritten? ==> r.None?
    ensures reading.AsIntended? ==> (r.Some? <==> Child(doc, name).Some? && Child(doc, name).value.ns == uri)
    ensures r.Some? ==> r == Child(doc, name)
  {
    match Child(doc, name)
    case None => None
    case Some(c) => if InNamespace(reading, c, uri) then Some(c) else None
  }

  // ---------------------------------------------------------------------
  // parseIQ
  // ---------------------------------------------------------------------

  /** The IQ class parseIQ wraps an element in. */
  datatype IqKind = PingIq | BindIq | RosterIq | AuthenticationIq | RegistrationIq | PlainIq

  function IqKindWith(reading: Reading, doc: Element): IqKind
  {
    if Offered(reading, doc, "ping", PING_NS).Some? then PingIq
    else if Offered(reading, doc, "bind", BIND_NS).Some? then BindIq
    else QueryKind(doc)
  }

  /** The classification by the `query` child, which compares namespace URIs. */
  function QueryKind(doc: Element): (r: IqKind)
    ensures r != PingIq && r != BindIq
    ensures r == RosterIq <==> Child(doc, "query").Some? && Child(doc, "query").value.ns == ROSTER_NS
    ensures r == AuthenticationIq <==> Child(doc, "query").Some? && Child(doc, "query").value.ns == AUTH_NS
    ensures r == RegistrationIq <==> Child(doc, "query").Some? && Child(doc, "query").value.ns == REGISTER_NS
  {
    match Child(doc, "query")
    case None => PlainIq
    case Some(q) =>
      if q.ns == ROSTER_NS then RosterIq
      else if q.ns == AUTH_NS then AuthenticationIq
      else if q.ns == REGISTER_NS then RegistrationIq
      else PlainIq
  }

  /** A `ping` child in urn:xmpp:ping (the first child called `ping`). */
  predicate HasPing(doc: Element)
  {
    Child(doc, "ping").Some? && Child(doc, "ping").value.ns == PING_NS
  }

  /** A `bind` child in the binding namespace (the first child called `bind`). */
  predicate HasBind(doc: Element)
  {
    Child(doc, "bind").Some? && Child(doc, "bind").value.ns == BIND_NS
  }

  /**
   * parseIQ as intended: ping wins over bind, bind over the query
   * namespaces roster, auth and register, in that order; a child in another
   * namespace falls through to the next check; otherwise a plain IQ.
   */
  function ParseIq(doc: Element): (r: IqKind)
    ensures r == PingIq <==> HasPing(doc)
    ensures r == BindIq <==> !HasPing(doc) && HasBind(doc)
    ensures !HasPing(doc) && !HasBind(doc) ==> r == QueryKind(doc)
  {
    IqKindWith(AsIntended, doc)
  }

  /** parseIQ as written: the ping and bind checks never hold, so only the query child decides. */
  function ParseIqAsWritten(doc: Element): (r: IqKind)
    ensures r == QueryKind(doc)
    ensures r != PingIq && r != BindIq
  {
    IqKindWith(AsWritten, doc)
  }

  /** An XEP-0199 ping IQ. */
  function PingRequest(): Element
  {
    Element("iq", CLIENT_NS, [("type", "get"), ("id", "p1")], [Leaf("ping", PING_NS)], "")
  }

  /** A ping request is read as a plain IQ by the code written, and as a Ping as intended. */
  lemma PingReadAsPlainIq()
    ensures ParseIqAsWritten(PingRequest()) == PlainIq
    ensures ParseIq(PingRequest()) == PingIq
  {
    assert FirstNamed(PingRequest().children, "ping") == Some(0);
    assert FirstNamed(PingRequest().children, "query") == None;
  }

  // ---------------------------------------------------------------------
  // Events and state
  // ---------------------------------------------------------------------

  /** A packet handed to processPacket. */
  datatype Packet =
    | MessagePacket(el: Element)
    | PresencePacket(el: Element)
    | IqPacket(kind: IqKind, el: Element)
    | ChallengePacket(el: Element)
    | SuccessPacket(el: Element)
    | FailurePacket(failure: Sasl.Failure)

  /** What ends the read loop with an exception. */
  datatype ReaderError =
    | StreamErrorReceived(error: PacketParserUtils.StreamError)
    | EmptyStreamError
    | UnknownPacketType(tag: string)
    | TlsNegotiationFailed
    | SecurityRequired
    | EndOfStream

  /**
   * What the reader does that is visible outside it: a packet delivered to
   * collectors and listeners, or a call into the connection, its SASL
   * authentication, its account manager or its listeners.
   */
  datatype ReaderEvent =
    | Delivered(packet: Packet)
    | Disconnect
    | ProceedTlsReceived
    | StartStreamCompression
    | StartTlsReceived(required: bool)
    | SaslMethods(mechanisms: seq<string>)
    | BindingRequired
    | ServiceCapsNode(node: string)
    | SessionsSupported
    | RosterVersioningSupported
    | CompressionMethods(methods: seq<string>)
    | AccountCreationSupported
    | StreamCompressionDenied
    | ChallengeReceived(data: string)
    | OpenStream
    | Authenticated
    | AuthenticationFailed(condition: Option<string>)
    | ServiceName(name: string)
    | ConnectionIdReleased
    | ConnectionError(error: ReaderError)
    | ConnectionClosed(listener: nat)

  /** ConnectionConfiguration.SecurityMode. */
  datatype SecurityMode = Required | Enabled | Disabled

  /**
   * The connection as the reader sees it: whether it is secure and whether
   * its socket is closed (answers that depend on what it has been told),
   * the configured security mode and the number of connection listeners.
   */
  datatype Connection = Connection(isSecure: seq<ReaderEvent> -> bool, isSocketClosed: seq<ReaderEvent> -> bool,
                                   securityMode: SecurityMode, listeners: nat)

  /** The opening `<stream:stream>` tag: its default namespace (null when none) and its attributes. */
  datatype StreamHeader = StreamHeader(defaultNs: Option<string>, attrs: Attrs)

  /**
   * The reader's state: `done`, the connection id, the stream headers and
   * top-level elements still to be read (a null element stands for a
   * document without a root), the log of events and whether the listener
   * executor was shut down.
   */
  datatype ReaderState = ReaderState(done: bool, connectionId: Option<string>, headers: seq<StreamHeader>,
                                     docs: seq<Option<Element>>, log: seq<ReaderEvent>, executorShutdown: bool)

  // ---------------------------------------------------------------------
  // parseStreamStart, resetParser
  // ---------------------------------------------------------------------

  /** One attribute of a `jabber:client` stream header: `id` sets the connection id (releasing the lock unless version is "1.0"), `from` sets the service name. */
  function HeaderAttr(s: ReaderState, a: (string, string), version: Option<string>): ReaderState
  {
    if a.0 == "id" then
      s.(connectionId := Some(a.1), log := s.log + (if version != Some("1.0") then [ConnectionIdReleased] else []))
    else if a.0 == "from" then s.(log := s.log + [ServiceName(a.1)])
    else s
  }

  /**
   * The attributes handled in document order. Only the connection id and
   * the log can change, and a header with neither `id` nor `from` changes
   * nothing.
   */
  function HeaderAttrs(s: ReaderState, attrs: Attrs, version: Option<string>): (r: ReaderState)
    ensures r.done == s.done && r.headers == s.headers && r.docs == s.docs && r.executorShutdown == s.executorShutdown
    ensures (forall i :: 0 <= i < |attrs| ==> attrs[i].0 != "id" && attrs[i].0 != "from") ==> r == s
    decreases |attrs|
  {
    if |attrs| == 0 then s else HeaderAttr(HeaderAttrs(s, attrs[..|attrs| - 1], version), attrs[|attrs| - 1], version)
  }

  /** parseStreamStart: acts only on a stream whose default namespace is `jabber:client`. */
  function StreamStart(s: ReaderState, h: StreamHeader): (r: ReaderState)
    ensures h.defaultNs != Some(CLIENT_NS) ==> r == s
    ensures r.done == s.done && r.headers == s.headers && r.docs == s.docs && r.executorShutdown == s.executorShutdown
  {
    if h.defaultNs == Some(CLIENT_NS) then HeaderAttrs(s, h.attrs, AttrValue(h.attrs, "version")) else s
  }

  predicate HasAttr(attrs: Attrs, key: string)
  {
    exists i :: 0 <= i < |attrs| && attrs[i].0 == key
  }

  /** An attribute list has `key` iff its front part has it or its last attribute is it. */
  lemma HasAttrStep(attrs: Attrs, key: string)
    requires |attrs| > 0
    ensures HasAttr(attrs, key) <==> HasAttr(attrs[..|attrs| - 1], key) || attrs[|attrs| - 1].0 == key
  {
    var init := attrs[..|attrs| - 1];
    if HasAttr(init, key) {
      var i :| 0 <= i < |init| && init[i].0 == key;
      assert attrs[i] == init[i];
    }
    if HasAttr(attrs, key) && attrs[|attrs| - 1].0 != key {
      var i :| 0 <= i < |attrs| && attrs[i].0 == key;
      assert init[i] == attrs[i];
    }
  }

  /** The header attributes change only the connection id and append to the log. */
  lemma {:induction false} HeaderAttrsFrame(s: ReaderState, attrs: Attrs, version: Option<string>)
    ensures var r := HeaderAttrs(s, attrs, version);
      r == s.(connectionId := r.connectionId, log := r.log) && |s.log| <= |r.log| && r.log[..|s.log|] == s.log
    decreases |attrs|
  {
    if |attrs| > 0 {
      HeaderAttrsFrame(s, attrs[..|attrs| - 1], version);
    }
  }

  /** The connection id is set iff there is an `id` attribute, and then to the value of one. */
  lemma {:induction false} HeaderAttrsConnectionId(s: ReaderState, attrs: Attrs, version: Option<string>)
    ensures var r := HeaderAttrs(s, attrs, version);
      && (!HasAttr(attrs, "id") ==> r.connectionId == s.connectionId)
      && (HasAttr(attrs, "id") ==> r.connectionId.Some? && ("id", r.connectionId.value) in attrs)
    decreases |attrs|
  {
    if |attrs| > 0 {
      var init := attrs[..|attrs| - 1];
      var a := attrs[|attrs| - 1];
      HeaderAttrsConnectionId(s, init, version);
      HasAttrStep(attrs, "id");
      assert attrs == init + [a];
      var mid := HeaderAttrs(s, init, version);
      if HasAttr(init, "id") && a.0 != "id" {
        assert ("id", mid.connectionId.value) in init;
      }
    }
  }

  /** The events one header attribute appends to the log. */
  lemma HeaderAttrEvents(s: ReaderState, a: (string, string), version: Option<string>)
    ensures var r := HeaderAttr(s, a, version);
      && |s.log| <= |r.log| && r.log[..|s.log|] == s.log
      && (ConnectionIdReleased in r.log[|s.log|..] <==> a.0 == "id" && version != Some("1.0"))
      && (forall n :: ServiceName(n) in r.log[|s.log|..] <==> a == ("from", n))
  {
    var r := HeaderAttr(s, a, version);
    if a.0 == "id" {
      assert r.log[|s.log|..] == (if version != Some("1.0") then [ConnectionIdReleased] else []);
    } else if a.0 == "from" {
      assert r.log[|s.log|..] == [ServiceName(a.1)];
    } else {
      assert r.log[|s.log|..] == [];
    }
  }

  /** A lock release is logged iff there is an `id` attribute and the version is not "1.0". */
  lemma {:induction false} HeaderAttrsReleased(s: ReaderState, attrs: Attrs, version: Option<string>)
    ensures var r := HeaderAttrs(s, attrs, version);
      |s.log| <= |r.log| && (ConnectionIdReleased in r.log[|s.log|..] <==> HasAttr(attrs, "id") && version != Some("1.0"))
    decreases |attrs|
  {
    HeaderAttrsFrame(s, attrs, version);
    if |attrs| > 0 {
      var init := attrs[..|attrs| - 1];
      var a := attrs[|attrs| - 1];
      HeaderAttrsReleased(s, init, version);
      HeaderAttrsFrame(s, init, version);
      HasAttrStep(attrs, "id");
      var mid := HeaderAttrs(s, init, version);
      var r := HeaderAttr(mid, a, version);
      HeaderAttrEvents(mid, a, version);
      assert r.log[|s.log|..] == mid.log[|s.log|..] + r.log[|mid.log|..];
    } else {
      assert s.log[|s.log|..] == [];
    }
  }

  /** One service name is logged for each `from` attribute. */
  lemma {:induction false} HeaderAttrsServiceNames(s: ReaderState, attrs: Attrs, version: Option<string>)
    ensures var r := HeaderAttrs(s, attrs, version);
      |s.log| <= |r.log| && (forall n :: ServiceName(n) in r.log[|s.log|..] <==> ("from", n) in attrs)
    decreases |attrs|
  {
    HeaderAttrsFrame(s, attrs, version);
    if |attrs| > 0 {
      var init := attrs[..|attrs| - 1];
      var a := attrs[|attrs| - 1];
      HeaderAttrsServiceNames(s, init, version);
      HeaderAttrsFrame(s, init, version);
      var mid := HeaderAttrs(s, init, version);
      var r := HeaderAttr(mid, a, version);
      HeaderAttrEvents(mid, a, version);
      assert attrs == init + [a];
      assert r.log[|s.log|..] == mid.log[|s.log|..] + r.log[|mid.log|..];
      forall n
        ensures ServiceName(n) in r.log[|s.log|..] <==> ("from", n) in attrs
      {
        assert ("from", n) in attrs <==> ("from", n) in init || a == ("from", n);
      }
    } else {
      assert s.log[|s.log|..] == [];
    }
  }

  /** The events the header attributes log: a lock release iff there is an `id` and the version is not "1.0", a service name per `from`. */
  lemma HeaderAttrsLog(s: ReaderState, attrs: Attrs, version: Option<string>)
    ensures var r := HeaderAttrs(s, attrs, version);
      && |s.log| <= |r.log|
      && (ConnectionIdReleased in r.log[|s.log|..] <==> HasAttr(attrs, "id") && version != Some("1.0"))
      && (forall n :: ServiceName(n) in r.log[|s.log|..] <==> ("from", n) in attrs)
  {
    HeaderAttrsReleased(s, attrs, version);
    HeaderAttrsServiceNames(s, attrs, version);
  }

  /** Everything the header attributes do, together. */
  lemma HeaderAttrsEffects(s: ReaderState, attrs: Attrs, version: Option<string>)
    ensures var r := HeaderAttrs(s, attrs, version);
      && r == s.(connectionId := r.connectionId, log := r.log)
      && |s.log| <= |r.log| && r.log[..|s.log|] == s.log
      && (!HasAttr(attrs, "id") ==> r.connectionId == s.connectionId)
      && (HasAttr(attrs, "id") ==> r.connectionId.Some? && ("id", r.connectionId.value) in attrs)
      && (ConnectionIdReleased in r.log[|s.log|..] <==> HasAttr(attrs, "id") && version != Some("1.0"))
      && (forall n :: ServiceName(n) in r.log[|s.log|..] <==> ("from", n) in attrs)
  {
    HeaderAttrsFrame(s, attrs, version);
    HeaderAttrsConnectionId(s, attrs, version);
    HeaderAttrsLog(s, attrs, version);
  }

  /**
   * parseStreamStart on a `jabber:client` stream: the connection id comes
   * from an `id` attribute, the lock is released iff there is one and the
   * version is not "1.0", `from` names the service; on any other stream
   * nothing changes.
   */
  lemma StreamStartEffects(s: ReaderState, h: StreamHeader)
    ensures h.defaultNs != Some(CLIENT_NS) ==> StreamStart(s, h) == s
    ensures var r := StreamStart(s, h);
      && r == s.(connectionId := r.connectionId, log := r.log)
      && |s.log| <= |r.log| && r.log[..|s.log|] == s.log
      && (h.defaultNs == Some(CLIENT_NS) ==>
           && (HasAttr(h.attrs, "id") ==> r.connectionId.Some? && ("id", r.connectionId.value) in h.attrs)
           && (!HasAttr(h.attrs, "id") ==> r.connectionId == s.connectionId)
           && (ConnectionIdReleased in r.log[|s.log|..] <==> HasAttr(h.attrs, "id") && AttrValue(h.attrs, "version") != Some("1.0"))
           && (forall n :: ServiceName(n) in r.log[|s.log|..] <==> ("from", n) in h.attrs))
  {
    if h.defaultNs == Some(CLIENT_NS) {
      HeaderAttrsEffects(s, h.attrs, AttrValue(h.attrs, "version"));
    }
  }

  /** resetParser: reads the next stream header and parses it; with none left nothing changes. */
  function Reset(s: ReaderState): (r: ReaderState)
    ensures r.done == s.done && r.docs == s.docs && r.executorShutdown == s.executorShutdown
    ensures r.headers == if |s.headers| == 0 then [] else s.headers[1..]
    ensures |s.log| <= |r.log| && r.log[..|s.log|] == s.log
  {
    if |s.headers| == 0 then s
    else
      var r := StreamStart(s.(headers := s.headers[1..]), s.headers[0]);
      StreamStartEffects(s.(headers := s.headers[1..]), s.headers[0]);
      r
  }

  // ---------------------------------------------------------------------
  // parseFeatures
  // ---------------------------------------------------------------------

  /** The caps node as written: `node` and `ver` read from the features element itself; the `c` element is never consulted. */
  function CapsNodeAsWritten(doc: Element, cEl: Element): (r: Option<string>)
    ensures r.Some? <==> AttrValue(doc.attrs, "node").Some? && AttrValue(doc.attrs, "ver").Some?
    ensures r.Some? ==> r.value == AttrValue(doc.attrs, "node").value + "#" + AttrValue(doc.attrs, "ver").value
  {
    match (AttrValue(doc.attrs, "node"), AttrValue(doc.attrs, "ver"))
    case (Some(node), Some(ver)) => Some(node + "#" + ver)
    case _ => None
  }

  /** The caps node as XEP-0115 places it: `node` and `ver` of the `c` element, joined by '#'. */
  function CapsNode(doc: Element, cEl: Element): (r: Option<string>)
    ensures r.Some? <==> AttrValue(cEl.attrs, "node").Some? && AttrValue(cEl.attrs, "ver").Some?
    ensures r.Some? ==> r.value == AttrValue(cEl.attrs, "node").value + "#" + AttrValue(cEl.attrs, "ver").value
  {
    match (AttrValue(cEl.attrs, "node"), AttrValue(cEl.attrs, "ver"))
    case (Some(node), Some(ver)) => Some(node + "#" + ver)
    case _ => None
  }

  /** Calls parseFeatures makes for the features it recognises. */
  predicate FeatureCall(e: ReaderEvent)
  {
    e.StartTlsReceived? || e.SaslMethods? || e.BindingRequired? || e.ServiceCapsNode? || e.SessionsSupported?
    || e.RosterVersioningSupported? || e.CompressionMethods? || e.AccountCreationSupported?
  }

  /** The one call for a feature offered in its namespace, or none. */
  function IfOffered(reading: Reading, doc: Element, name: string, uri: string, e: ReaderEvent): (r: seq<ReaderEvent>)
    ensures r == [] || r == [e]
    ensures reading.AsWritten? ==> r == []
  {
    if Offered(reading, doc, name, uri).Some? then [e] else []
  }

  /** `starttls`: tells the connection whether TLS is required. */
  function StartTlsEvents(reading: Reading, doc: Element): (r: seq<ReaderEvent>)
    ensures reading.AsWritten? ==> r == []
    ensures forall e :: e in r ==> e.StartTlsReceived?
    ensures forall b :: StartTlsReceived(b) in r <==>
      Offered(reading, doc, "starttls", TLS_NS).Some? && b == Child(Offered(reading, doc, "starttls", TLS_NS).value, "required").Some?
  {
    match Offered(reading, doc, "starttls", TLS_NS)
    case Some(el) => [StartTlsReceived(Child(el, "required").Some?)]
    case None => []
  }

  /** `mechanisms`: the texts of its `mechanism` children go to SASL. */
  function MechanismEvents(reading: Reading, doc: Element): (r: seq<ReaderEvent>)
    ensures reading.AsWritten? ==> r == []
    ensures forall e :: e in r ==> e.SaslMethods?
  {
    match Offered(reading, doc, "mechanisms", Sasl.SASL_NS)
    case Some(el) => [SaslMethods(PacketParserUtils.ChildTextsOf(el.children, "mechanism"))]
    case None => []
  }

  /** `c` (entity capabilities): the service's caps node, when it has one. */
  function CapsEvents(reading: Reading, doc: Element): (r: seq<ReaderEvent>)
    ensures reading.AsWritten? ==> r == []
    ensures forall e :: e in r ==> e.ServiceCapsNode?
  {
    match Offered(reading, doc, "c", CAPS_NS)
    case Some(el) =>
      (match (if reading.AsWritten? then CapsNodeAsWritten(doc, el) else CapsNode(doc, el))
       case Some(node) => [ServiceCapsNode(node)]
       case None => [])
    case None => []
  }

  /** `compression`: the texts of its `method` children go to the connection. */
  function CompressionEvents(reading: Reading, doc: Element): (r: seq<ReaderEvent>)
    ensures reading.AsWritten? ==> r == []
    ensures forall e :: e in r ==> e.CompressionMethods?
  {
    match Offered(reading, doc, "compression", COMPRESS_FEATURE_NS)
    case Some(el) => [CompressionMethods(PacketParserUtils.ChildTextsOf(el.children, "method"))]
    case None => []
  }

  /** The calls for the features after `starttls`, in the order parseFeatures checks them. */
  function LaterFeatureEvents(reading: Reading, doc: Element): (r: seq<ReaderEvent>)
    ensures reading.AsWritten? ==> r == []
    ensures forall e :: e in r ==> FeatureCall(e) && !e.StartTlsReceived?
  {
    MechanismEvents(reading, doc)
    + IfOffered(reading, doc, "bind", BIND_NS, BindingRequired)
    + CapsEvents(reading, doc)
    + IfOffered(reading, doc, "session", SESSION_NS, SessionsSupported)
    + IfOffered(reading, doc, "ver", ROSTER_VER_NS, RosterVersioningSupported)
    + CompressionEvents(reading, doc)
    + IfOffered(reading, doc, "register", REGISTER_FEATURE_NS, AccountCreationSupported)
  }

  /** The calls for every recognised feature, in the order parseFeatures checks them. */
  function FeatureEvents(reading: Reading, doc: Element): (r: seq<ReaderEvent>)
    ensures forall e :: e in r ==> FeatureCall(e)
    ensures reading.AsWritten? ==> r == []
    ensures forall b :: StartTlsReceived(b) in r <==>
      Offered(reading, doc, "starttls", TLS_NS).Some? && b == Child(Offered(reading, doc, "starttls", TLS_NS).value, "required").Some?
  {
    var first := StartTlsEvents(reading, doc);
    var later := LaterFeatureEvents(reading, doc);
    assert forall b :: StartTlsReceived(b) !in later;
    first + later
  }

  /**
   * The policy at the end of parseFeatures, given the feature calls, whether
   * STARTTLS was offered and whether the connection is secure: refuse an
   * insecure connection the server offers no STARTTLS to when security is
   * required, and otherwise release the connection-id lock unless STARTTLS
   * negotiation is about to start.
   */
  function FeaturesPolicy(events: seq<ReaderEvent>, startTls: bool, secure: bool, mode: SecurityMode)
    : (r: (seq<ReaderEvent>, Option<ReaderError>))
    ensures r.1.Some? <==> !secure && !startTls && mode == Required
    ensures r.1.Some? ==> r == (events, Some(SecurityRequired))
    ensures r.1.None? ==> r.0 == events + (if !startTls || mode == Disabled then [ConnectionIdReleased] else [])
  {
    if !secure && !startTls && mode == Required then (events, Some(SecurityRequired))
    else (events + (if !startTls || mode == Disabled then [ConnectionIdReleased] else []), None)
  }

  /** parseFeatures under either reading of the namespace comparisons: the feature calls, then the STARTTLS policy. */
  function FeaturesOutcomeWith(reading: Reading, doc: Element, secure: bool, mode: SecurityMode): (seq<ReaderEvent>, Option<ReaderError>)
  {
    FeaturesPolicy(FeatureEvents(reading, doc), Offered(reading, doc, "starttls", TLS_NS).Some?, secure, mode)
  }

  /**
   * parseFeatures as intended. It throws `forbidden` exactly when the
   * connection is not secure, no `starttls` in the TLS namespace was offered
   * and security is required; otherwise it releases the connection-id lock
   * iff STARTTLS was not offered or security is disabled.
   */
  function FeaturesOutcome(doc: Element, secure: bool, mode: SecurityMode): (r: (seq<ReaderEvent>, Option<ReaderError>))
    ensures var startTls := Child(doc, "starttls").Some? && Child(doc, "starttls").value.ns == TLS_NS;
      && (r.1 == Some(SecurityRequired) <==> !secure && !startTls && mode == Required)
      && (r.1.None? || r.1 == Some(SecurityRequired))
      && (r.1.None? ==> (ConnectionIdReleased in r.0 <==> !startTls || mode == Disabled))
      && (r.1.Some? ==> ConnectionIdReleased !in r.0)
      && (forall b :: StartTlsReceived(b) in r.0 <==> startTls && b == Child(Child(doc, "starttls").value, "required").Some?)
  {
    assert ConnectionIdReleased !in FeatureEvents(AsIntended, doc);
    FeaturesOutcomeWith(AsIntended, doc, secure, mode)
  }

  /**
   * parseFeatures as written: no feature is ever recognised, so an insecure
   * connection with security required is always refused, and otherwise the
   * lock is always released.
   */
  function ParseFeaturesAsWritten(doc: Element, secure: bool, mode: SecurityMode): (r: (seq<ReaderEvent>, Option<ReaderError>))
    ensures r == if !secure && mode == Required then ([], Some(SecurityRequired)) else ([ConnectionIdReleased], None)
  {
    assert FeatureEvents(AsWritten, doc) + [ConnectionIdReleased] == [ConnectionIdReleased];
    FeaturesOutcomeWith(AsWritten, doc, secure, mode)
  }

  /** Stream features offering STARTTLS as required, and SASL PLAIN. */
  function TlsRequiredFeatures(): Element
  {
    Element("features", "http://etherx.jabber.org/streams", [], [
      Element("starttls", TLS_NS, [], [Leaf("required", TLS_NS)], ""),
      Element("mechanisms", Sasl.SASL_NS, [], [Element("mechanism", Sasl.SASL_NS, [], [], "PLAIN")], "")], "")
  }

  /**
   * A server that offers STARTTLS to a client requiring security: the code
   * written refuses the connection, while the STARTTLS policy of section 5
   * of RFC 6120 goes on with the TLS negotiation.
   */
  lemma StartTlsOfferIgnored()
    ensures ParseFeaturesAsWritten(TlsRequiredFeatures(), false, Required) == ([], Some(SecurityRequired))
    ensures FeaturesOutcome(TlsRequiredFeatures(), false, Required) == ([StartTlsReceived(true), SaslMethods(["PLAIN"])], None)
  {
    var doc := TlsRequiredFeatures();
    TlsRequiredFeatureEvents();
    var events := FeatureEvents(AsIntended, doc);
    assert FeaturesOutcome(doc, false, Required) == FeaturesPolicy(events, true, false, Required);
    assert events + [] == events;
  }

  lemma TlsRequiredFeatureEvents()
    ensures Offered(AsIntended, TlsRequiredFeatures(), "starttls", TLS_NS).Some?
    ensures FeatureEvents(AsIntended, TlsRequiredFeatures()) == [StartTlsReceived(true), SaslMethods(["PLAIN"])]
  {
    var doc := TlsRequiredFeatures();
    TlsRequiredStartTls();
    TlsRequiredLaterFeatures();
    assert FeatureEvents(AsIntended, doc) == StartTlsEvents(AsIntended, doc) + LaterFeatureEvents(AsIntended, doc);
  }

  lemma TlsRequiredStartTls()
    ensures Offered(AsIntended, TlsRequiredFeatures(), "starttls", TLS_NS) == Some(TlsRequiredFeatures().children[0])
    ensures StartTlsEvents(AsIntended, TlsRequiredFeatures()) == [StartTlsReceived(true)]
  {
    var doc := TlsRequiredFeatures();
    assert FirstNamed(doc.children, "starttls") == Some(0);
    assert FirstNamed(doc.children[0].children, "required") == Some(0);
  }

  lemma TlsRequiredLaterFeatures()
    ensures LaterFeatureEvents(AsIntended, TlsRequiredFeatures()) == [SaslMethods(["PLAIN"])]
  {
    var doc := TlsRequiredFeatures();
    OnlyMechanismsLater(doc);
    assert FirstNamed(doc.children, "mechanisms") == Some(1);
    var m := doc.children[1];
    assert PacketParserUtils.ChildTextsOf(m.children, "mechanism") == ["PLAIN"] by {
      assert m.children[1..] == [];
    }
  }

  /** Features offering only `starttls` and `mechanisms` lead to no later call but SASL's. */
  lemma OnlyMechanismsLater(doc: Element)
    requires forall i :: 0 <= i < |doc.children| ==> doc.children[i].name == "starttls" || doc.children[i].name == "mechanisms"
    ensures LaterFeatureEvents(AsIntended, doc) == MechanismEvents(AsIntended, doc)
  {
    NotOffered(doc, "bind");
    NotOffered(doc, "c");
    NotOffered(doc, "session");
    NotOffered(doc, "ver");
    NotOffered(doc, "compression");
    NotOffered(doc, "register");
  }

  /** A feature none of whose children carries its name is not offered. */
  lemma NotOffered(doc: Element, name: string)
    requires name != "starttls" && name != "mechanisms"
    requires forall i :: 0 <= i < |doc.children| ==> doc.children[i].name == "starttls" || doc.children[i].name == "mechanisms"
    ensures Child(doc, name).None?
  {
    assert FirstNamed(doc.children, name).None?;
  }

  /** Features carrying an XEP-0115 `c` element. */
  function CapsFeatures(node: string, ver: string): Element
  {
    Element("features", "http://etherx.jabber.org/streams", [],
      [Element("c", CAPS_NS, [("hash", "sha-1"), ("node", node), ("ver", ver)], [], "")], "")
  }

  /** The caps node of the `c` element is lost as written, and is node#ver as intended. */
  lemma CapsNodeReadFromWrongElement(node: string, ver: string)
    ensures var doc := CapsFeatures(node, ver);
      CapsNodeAsWritten(doc, doc.children[0]) == None && CapsNode(doc, doc.children[0]) == Some(node + "#" + ver)
  {
    var attrs := CapsFeatures(node, ver).children[0].attrs;
    assert AttrValue(attrs[2..], "ver") == Some(ver);
    assert AttrValue(attrs[1..], "ver") == Some(ver);
    assert AttrValue(attrs[1..], "node") == Some(node);
  }

  // ---------------------------------------------------------------------
  // parseFailure
  // ---------------------------------------------------------------------

  /** Where parseFailure sends a `failure` frame. */
  datatype FailureRoute = TlsFailure | CompressionFailure | SaslFailure

  function FailureRouteWith(reading: Reading, el: Element): FailureRoute
  {
    var isTls := match reading
      case AsWritten => JavaEquals(StringObject(TLS_NS), NamespaceObject(el.ns))
      case AsIntended => el.ns == TLS_NS;
    var isCompress := match reading
      case AsWritten => JavaEquals(StringObject(COMPRESS_NS), NamespaceObject(el.ns))
      case AsIntended => el.ns == COMPRESS_NS;
    if isTls then TlsFailure else if isCompress then CompressionFailure else SaslFailure
  }

  /** parseFailure as intended: by the failure's namespace, TLS, then compression, then SASL. */
  function RouteFailure(el: Element): (r: FailureRoute)
    ensures r == TlsFailure <==> el.ns == TLS_NS
    ensures r == CompressionFailure <==> el.ns == COMPRESS_NS
    ensures r == SaslFailure <==> el.ns != TLS_NS && el.ns != COMPRESS_NS
  {
    FailureRouteWith(AsIntended, el)
  }

  /** parseFailure as written: a String is never equal to a Namespace, so every failure is taken for a SASL failure. */
  function RouteFailureAsWritten(el: Element): (r: FailureRoute)
    ensures r == SaslFailure
  {
    FailureRouteWith(AsWritten, el)
  }

  /** A failed TLS negotiation is taken for a SASL failure by the code written. */
  lemma TlsFailureTakenForSasl()
    ensures RouteFailureAsWritten(Leaf("failure", TLS_NS)) == SaslFailure
    ensures RouteFailure(Leaf("failure", TLS_NS)) == TlsFailure
  {
  }

  // ---------------------------------------------------------------------
  // One element of the read loop
  // ---------------------------------------------------------------------

  /** The branch parsePackets takes for a tag. */
  datatype Branch = MessageBranch | PresenceBranch | IqBranch | ErrorBranch | FeaturesBranch | ProceedBranch
                  | FailureBranch | ChallengeBranch | SuccessBranch | CompressedBranch | UnknownBranch

  /** The tag each known branch is taken for. */
  function BranchTag(b: Branch): string
    requires !b.UnknownBranch?
  {
    match b
    case MessageBranch => "message"
    case PresenceBranch => "presence"
    case IqBranch => "iq"
    case ErrorBranch => "error"
    case FeaturesBranch => "features"
    case ProceedBranch => "proceed"
    case FailureBranch => "failure"
    case ChallengeBranch => "challenge"
    case SuccessBranch => "success"
    case CompressedBranch => "compressed"
  }

  const KnownTags: set<string> := {"message", "presence", "iq", "error", "features", "proceed", "failure", "challenge", "success", "compressed"}

  /**
   * The top-level dispatch: each known tag reaches the one branch named
   * after it, and every other tag the unknown-packet branch.
   */
  function TagBranch(tag: string): (r: Branch)
    ensures r.UnknownBranch? <==> tag !in KnownTags
    ensures !r.UnknownBranch? ==> BranchTag(r) == tag
  {
    if tag == "message" then MessageBranch
    else if tag == "presence" then PresenceBranch
    else if tag == "iq" then IqBranch
    else if tag == "error" then ErrorBranch
    else if tag == "features" then FeaturesBranch
    else if tag == "proceed" then ProceedBranch
    else if tag == "failure" then FailureBranch
    else if tag == "challenge" then ChallengeBranch
    else if tag == "success" then SuccessBranch
    else if tag == "compressed" then CompressedBranch
    else UnknownBranch
  }

  /** Distinct tags never share a branch. */
  lemma DispatchExclusive(t1: string, t2: string)
    requires t1 != t2
    ensures TagBranch(t1).UnknownBranch? || TagBranch(t1) != TagBranch(t2)
  {
  }

  /** An iteration either goes on with a new state, or throws after reaching one. */
  datatype StepResult = Continue(state: ReaderState) | Abort(state: ReaderState, error: ReaderError)

  function Emit(s: ReaderState, events: seq<ReaderEvent>): ReaderState
  {
    s.(log := s.log + events)
  }

  /** The exception parsePackets throws for a stream error, under either reading of parseStreamError. */
  function StreamErrorOf(reading: Reading, doc: Element): (r: ReaderError)
    ensures r == EmptyStreamError <==> |doc.children| == 0
    ensures r != EmptyStreamError ==> r.StreamErrorReceived?
    ensures r.StreamErrorReceived? && reading.AsWritten? ==> r.error.code.None?
    ensures r.StreamErrorReceived? && reading.AsIntended? ==> (r.error.code.Some? <==> doc.children[0].ns == PacketParserUtils.STREAMS_NS)
  {
    var parsed := match reading
      case AsWritten => PacketParserUtils.ParseStreamErrorAsWritten(doc)
      case AsIntended => PacketParserUtils.ParseStreamError(doc);
    match parsed
    case Ok(e) => StreamErrorReceived(e)
    case Err(_) => EmptyStreamError
  }

  /** parseFeatures on the reader's state; whether the connection is secure is asked after the feature calls. */
  function FeaturesStep(reading: Reading, s: ReaderState, doc: Element, conn: Connection): (r: StepResult)
    ensures r.state == s.(log := r.state.log)
    ensures var offered := Offered(reading, doc, "starttls", TLS_NS).Some?;
      && (r.Abort? <==> !conn.isSecure(s.log + FeatureEvents(reading, doc)) && !offered && conn.securityMode == Required)
      && (r.Abort? ==> r.error == SecurityRequired && r.state.log == s.log + FeatureEvents(reading, doc))
      && (r.Continue? ==> r.state.log == s.log + FeatureEvents(reading, doc)
                                        + (if !offered || conn.securityMode == Disabled then [ConnectionIdReleased] else []))
  {
    var secure := conn.isSecure(s.log + FeatureEvents(reading, doc));
    var (events, error) := FeaturesOutcomeWith(reading, doc, secure, conn.securityMode);
    assert s.log + FeatureEvents(reading, doc) + [] == s.log + FeatureEvents(reading, doc);
    if error.Some? then Abort(Emit(s, events), error.value) else Continue(Emit(s, events))
  }

  /** parseFailure on the reader's state. */
  function FailureStep(reading: Reading, s: ReaderState, el: Element): (r: StepResult)
    ensures r.state == s.(log := r.state.log)
    ensures r.Abort? <==> reading.AsIntended? && el.ns == TLS_NS
    ensures r.Abort? ==> r == Abort(s, TlsNegotiationFailed)
    ensures reading.AsIntended? && el.ns == COMPRESS_NS ==> r == Continue(Emit(s, [StreamCompressionDenied]))
    ensures r.Continue? && !(reading.AsIntended? && el.ns == COMPRESS_NS) ==>
      r.state.log == s.log + [Delivered(FailurePacket(Sasl.FailureOfElement(el))), AuthenticationFailed(Sasl.FailureOfElement(el).condition)]
  {
    match FailureRouteWith(reading, el)
    case TlsFailure => Abort(s, TlsNegotiationFailed)
    case CompressionFailure => Continue(Emit(s, [StreamCompressionDenied]))
    case SaslFailure =>
      var failure := Sasl.FailureOfElement(el);
      Continue(Emit(s, [Delivered(FailurePacket(failure)), AuthenticationFailed(failure.condition)]))
  }

  /** parseChallenge: deliver the challenge, then pass its text to SASL; nothing else changes. */
  function ChallengeStep(s: ReaderState, doc: Element): (r: ReaderState)
    ensures r == s.(log := r.log) && |r.log| == |s.log| + 2 && r.log[..|s.log|] == s.log
    ensures r.log[|s.log|] == Delivered(ChallengePacket(doc)) && r.log[|s.log| + 1] == ChallengeReceived(doc.text)
  {
    Emit(s, [Delivered(ChallengePacket(doc)), ChallengeReceived(doc.text)])
  }

  /**
   * parseSuccess: deliver, reopen the stream, read the new stream header,
   * then report success; the success is delivered first and reported last.
   */
  function SuccessStep(s: ReaderState, doc: Element): (r: ReaderState)
    ensures r.done == s.done && r.docs == s.docs && r.executorShutdown == s.executorShutdown
    ensures r.headers == if |s.headers| == 0 then [] else s.headers[1..]
    ensures |r.log| >= |s.log| + 3 && r.log[..|s.log|] == s.log
    ensures r.log[|s.log|] == Delivered(SuccessPacket(doc)) && r.log[|s.log| + 1] == OpenStream && r.log[|r.log| - 1] == Authenticated
  {
    Emit(Reset(Emit(s, [Delivered(SuccessPacket(doc)), OpenStream])), [Authenticated])
  }

  /** One iteration of parsePackets for a top-level element. */
  function Dispatch(reading: Reading, s: ReaderState, doc: Element, conn: Connection): (r: StepResult)
    ensures r.state.done == s.done && r.state.docs == s.docs
  {
    match TagBranch(doc.name)
    case MessageBranch => Continue(Emit(s, [Delivered(MessagePacket(doc))]))
    case PresenceBranch => Continue(Emit(s, [Delivered(PresencePacket(doc))]))
    case IqBranch => Continue(Emit(s, [Delivered(IqPacket(IqKindWith(reading, doc), doc))]))
    case ErrorBranch => Abort(s, StreamErrorOf(reading, doc))
    case FeaturesBranch => FeaturesStep(reading, s, doc, conn)
    case ProceedBranch => Continue(Reset(Emit(s, [ProceedTlsReceived])))
    case FailureBranch => FailureStep(reading, s, doc)
    case ChallengeBranch => Continue(ChallengeStep(s, doc))
    case SuccessBranch => Continue(SuccessStep(s, doc))
    case CompressedBranch => Continue(Reset(Emit(s, [StartStreamCompression])))
    case UnknownBranch => Abort(s, UnknownPacketType(doc.name))
  }

  /** The catch block of parsePackets: report the error unless the reader is done or the socket closed. */
  function ErrorReported(s: ReaderState, e: ReaderError, conn: Connection): (r: ReaderState)
    ensures !s.done && !conn.isSocketClosed(s.log) ==> r == Emit(s, [ConnectionError(e)])
    ensures s.done || conn.isSocketClosed(s.log) ==> r == s
  {
    if !(s.done || conn.isSocketClosed(s.log)) then Emit(s, [ConnectionError(e)]) else s
  }

  /**
   * parsePackets: until `done`, read the next element (a missing root
   * disconnects and goes on), dispatch it, and stop at the first exception;
   * running out of input is an exception too.
   */
  function Run(reading: Reading, s: ReaderState, conn: Connection): (r: ReaderState)
    ensures r.done == s.done
    decreases |s.docs|
  {
    if s.done then s
    else if |s.docs| == 0 then ErrorReported(s, EndOfStream, conn)
    else
      var next := s.(docs := s.docs[1..]);
      match s.docs[0]
      case None => Run(reading, Emit(next, [Disconnect]), conn)
      case Some(doc) =>
        match Dispatch(reading, next, doc, conn)
        case Continue(t) => Run(reading, t, conn)
        case Abort(t, e) => ErrorReported(t, e, conn)
  }

  /**
   * A stream error ends the loop: no later element is read, and the error is
   * reported iff the reader is not done and the socket is not closed.
   */
  lemma StreamErrorStopsReading(reading: Reading, s: ReaderState, doc: Element, conn: Connection)
    requires !s.done && |s.docs| > 0 && s.docs[0] == Some(doc) && doc.name == "error"
    ensures var r := Run(reading, s, conn);
      && r.docs == s.docs[1..]
      && r.log == s.log + (if conn.isSocketClosed(s.log) then [] else [ConnectionError(StreamErrorOf(reading, doc))])
  {
  }

  /** An element with an unknown tag ends the loop the same way. */
  lemma UnknownTagStopsReading(reading: Reading, s: ReaderState, doc: Element, conn: Connection)
    requires !s.done && |s.docs| > 0 && s.docs[0] == Some(doc) && doc.name !in KnownTags
    ensures var r := Run(reading, s, conn);
      && r.docs == s.docs[1..]
      && r.log == s.log + (if conn.isSocketClosed(s.log) then [] else [ConnectionError(UnknownPacketType(doc.name))])
  {
  }

  /** A message or presence stanza, delivered as it is. */
  predicate IsStanza(d: Option<Element>)
  {
    d.Some? && (d.value.name == "message" || d.value.name == "presence")
  }

  function StanzaPacket(d: Option<Element>): Packet
    requires IsStanza(d)
  {
    if d.value.name == "message" then MessagePacket(d.value) else PresencePacket(d.value)
  }

  function Deliveries(docs: seq<Option<Element>>): seq<ReaderEvent>
    requires forall i :: 0 <= i < |docs| ==> IsStanza(docs[i])
  {
    if |docs| == 0 then [] else [Delivered(StanzaPacket(docs[0]))] + Deliveries(docs[1..])
  }

  /**
   * A stream of messages and presences is delivered in order, each exactly
   * once, and the end of the input is then reported unless the socket is
   * closed.
   */
  lemma {:induction false} StanzasDeliveredInOrder(reading: Reading, s: ReaderState, conn: Connection)
    requires !s.done && forall i :: 0 <= i < |s.docs| ==> IsStanza(s.docs[i])
    ensures var delivered := s.log + Deliveries(s.docs);
      Run(reading, s, conn).log == delivered + (if conn.isSocketClosed(delivered) then [] else [ConnectionError(EndOfStream)])
    decreases |s.docs|
  {
    if |s.docs| > 0 {
      var next := Emit(s.(docs := s.docs[1..]), [Delivered(StanzaPacket(s.docs[0]))]);
      assert Run(reading, s, conn) == Run(reading, next, conn);
      StanzasDeliveredInOrder(reading, next, conn);
      assert next.log + Deliveries(next.docs) == s.log + Deliveries(s.docs);
    } else {
      assert s.log + Deliveries(s.docs) == s.log;
    }
  }

  /** End to end: the reader as written delivers a ping as a plain IQ, the reader as intended as a Ping. */
  lemma PingThroughReader(s: ReaderState, conn: Connection)
    requires !s.done && s.docs == [Some(PingRequest())]
    ensures var d := s.log + [Delivered(IqPacket(PlainIq, PingRequest()))];
      Run(AsWritten, s, conn).log == d + (if conn.isSocketClosed(d) then [] else [ConnectionError(EndOfStream)])
    ensures var d := s.log + [Delivered(IqPacket(PingIq, PingRequest()))];
      Run(AsIntended, s, conn).log == d + (if conn.isSocketClosed(d) then [] else [ConnectionError(EndOfStream)])
  {
    PingReadAsPlainIq();
  }

  /**
   * End to end: a failed TLS negotiation is reported to SASL and the reader
   * reads on as written, while the reader as intended stops with the TLS
   * error.
   */
  lemma TlsFailureThroughReader(s: ReaderState, conn: Connection)
    requires !s.done && s.docs == [Some(Leaf("failure", TLS_NS))]
    ensures var f := Sasl.FailureOfElement(Leaf("failure", TLS_NS));
      var d := s.log + [Delivered(FailurePacket(f)), AuthenticationFailed(f.condition)];
      Run(AsWritten, s, conn).log == d + (if conn.isSocketClosed(d) then [] else [ConnectionError(EndOfStream)])
    ensures Run(AsIntended, s, conn).log == s.log + (if conn.isSocketClosed(s.log) then [] else [ConnectionError(TlsNegotiationFailed)])
  {
    TlsFailureTakenForSasl();
  }

  /**
   * End to end: offered STARTTLS on an insecure connection that requires
   * security, the reader as written stops with `forbidden`, while the
   * reader as intended takes up STARTTLS and SASL and reads on.
   */
  lemma TlsRequiredThroughReader(s: ReaderState, conn: Connection)
    requires !s.done && s.docs == [Some(TlsRequiredFeatures())]
    requires conn.securityMode == Required && !conn.isSecure(s.log)
    ensures Run(AsWritten, s, conn).log == s.log + (if conn.isSocketClosed(s.log) then [] else [ConnectionError(SecurityRequired)])
    ensures var d := s.log + [StartTlsReceived(true), SaslMethods(["PLAIN"])];
      Run(AsIntended, s, conn).log == d + (if conn.isSocketClosed(d) then [] else [ConnectionError(EndOfStream)])
  {
    TlsRequiredAsWritten(s, conn);
    TlsRequiredAsIntended(s, conn);
  }

  /** The half of TlsRequiredThroughReader for the reader as written. */
  lemma TlsRequiredAsWritten(s: ReaderState, conn: Connection)
    requires !s.done && s.docs == [Some(TlsRequiredFeatures())]
    requires conn.securityMode == Required && !conn.isSecure(s.log)
    ensures Run(AsWritten, s, conn).log == s.log + (if conn.isSocketClosed(s.log) then [] else [ConnectionError(SecurityRequired)])
  {
    var doc := TlsRequiredFeatures();
    var next := s.(docs := []);
    assert FeatureEvents(AsWritten, doc) == [];
    assert s.log + [] == s.log;
    assert FeaturesStep(AsWritten, next, doc, conn) == Abort(next, SecurityRequired);
  }

  /** The half of TlsRequiredThroughReader for the reader as intended. */
  lemma TlsRequiredAsIntended(s: ReaderState, conn: Connection)
    requires !s.done && s.docs == [Some(TlsRequiredFeatures())]
    requires conn.securityMode == Required
    ensures var d := s.log + [StartTlsReceived(true), SaslMethods(["PLAIN"])];
      Run(AsIntended, s, conn).log == d + (if conn.isSocketClosed(d) then [] else [ConnectionError(EndOfStream)])
  {
    var doc := TlsRequiredFeatures();
    TlsRequiredFeatureEvents();
    var events := [StartTlsReceived(true), SaslMethods(["PLAIN"])];
    assert FeaturesOutcomeWith(AsIntended, doc, conn.isSecure(s.log + events), Required) == (events + [], None);
    assert events + [] == events;
  }

  // ---------------------------------------------------------------------
  // shutdown
  // ---------------------------------------------------------------------

  function Notifications(n: nat): (r: seq<ReaderEvent>)
    ensures |r| == n && forall i :: 0 <= i < n ==> r[i] == ConnectionClosed(i)
  {
    if n == 0 then [] else Notifications(n - 1) + [ConnectionClosed(n - 1)]
  }

  /** shutdown: listeners hear connectionClosed only if the reader was not done; then it is done and the executor stops. */
  function ShutdownState(s: ReaderState, listeners: nat): (r: ReaderState)
    ensures r.done && r.executorShutdown
    ensures r.connectionId == s.connectionId && r.headers == s.headers && r.docs == s.docs
  {
    s.(done := true, executorShutdown := true, log := s.log + (if s.done then [] else Notifications(listeners)))
  }

  /** A second shutdown notifies no one and changes nothing. */
  lemma ShutdownIdempotent(s: ReaderState, listeners: nat)
    ensures ShutdownState(ShutdownState(s, listeners), listeners) == ShutdownState(s, listeners)
    ensures s.done ==> ShutdownState(s, listeners).log == s.log
    ensures !s.done ==> ShutdownState(s, listeners).log == s.log + Notifications(listeners)
  {
  }

  /** After shutdown the read loop reads nothing. */
  lemma NothingReadAfterShutdown(reading: Reading, s: ReaderState, conn: Connection)
    ensures Run(reading, ShutdownState(s, conn.listeners), conn) == ShutdownState(s, conn.listeners)
  {
  }

  // ---------------------------------------------------------------------
  // The reader
  // ---------------------------------------------------------------------

  class PacketReader {
    const connection: Connection
    /** Which reading of the namespace comparisons the reader runs: the code as written, or as intended. */
    const reading: Reading
    var done: bool
    var connectionId: Option<string>
    var headers: seq<StreamHeader>
    var docs: seq<Option<Element>>
    var log: seq<ReaderEvent>
    var executorShutdown: bool

    function State(): ReaderState
      reads this
    {
      ReaderState(done, connectionId, headers, docs, log, executorShutdown)
    }

    /** PacketReader(connection), which runs init(): not done, no connection id, a fresh executor, and the stream opened. */
    constructor (connection: Connection, reading: Reading, headers: seq<StreamHeader>, docs: seq<Option<Element>>)
      ensures this.connection == connection && this.reading == reading
      ensures State() == Reset(ReaderState(false, None, headers, docs, [], false))
    {
      this.connection := connection;
      this.reading := reading;
      done := false;
      connectionId := None;
      this.headers := headers;
      this.docs := docs;
      log := [];
      executorShutdown := false;
      new;
      ResetParser();
    }

    /** init(): not done, no connection id, a fresh executor, and the stream opened again. */
    method Init()
      modifies this
      ensures State() == Reset(old(State()).(done := false, connectionId := None, executorShutdown := false))
    {
      done := false;
      connectionId := None;
      executorShutdown := false;
      ResetParser();
    }

    /** shutdown. */
    method Shutdown()
      modifies this
      ensures State() == ShutdownState(old(State()), connection.listeners)
    {
      if !done {
        for i := 0 to connection.listeners
          invariant log == old(log) + Notifications(i)
          invariant State() == old(State()).(log := log)
        {
          log := log + [ConnectionClosed(i)];
        }
      }
      done := true;
      executorShutdown := true;
    }

    /** parseStreamStart. */
    method ParseStreamStart(h: StreamHeader)
      modifies this
      ensures State() == StreamStart(old(State()), h)
    {
      if h.defaultNs == Some(CLIENT_NS) {
        var version := AttrValue(h.attrs, "version");
        for i := 0 to |h.attrs|
          invariant State() == HeaderAttrs(old(State()), h.attrs[..i], version)
        {
          assert h.attrs[..i + 1][..i] == h.attrs[..i];
          var (name, value) := h.attrs[i];
          if name == "id" {
            connectionId := Some(value);
            if version != Some("1.0") {
              log := log + [ConnectionIdReleased];
            }
          } else if name == "from" {
            log := log + [ServiceName(value)];
          }
        }
        assert h.attrs[..|h.attrs|] == h.attrs;
      }
    }

    /** resetParser. */
    method ResetParser()
      modifies this
      ensures State() == Reset(old(State()))
    {
      if |headers| > 0 {
        var h := headers[0];
        headers := headers[1..];
        ParseStreamStart(h);
      }
    }

    /** processPacket: null is ignored; anything else goes to the collectors and the listeners. */
    method ProcessPacket(packet: Option<Packet>)
      modifies this
      ensures State() == Emit(old(State()), if packet.Some? then [Delivered(packet.value)] else [])
    {
      if packet.Some? {
        log := log + [Delivered(packet.value)];
      }
    }

    /** parseFeatures. */
    method ParseFeatures(doc: Element) returns (error: Option<ReaderError>)
      modifies this
      ensures FeaturesStep(reading, old(State()), doc, connection) ==
              if error.Some? then Abort(State(), error.value) else Continue(State())
    {
      var secure := connection.isSecure(log + FeatureEvents(reading, doc));
      var (events, e) := FeaturesOutcomeWith(reading, doc, secure, connection.securityMode);
      log := log + events;
      error := e;
    }

    /** parseFailure. */
    method ParseFailure(el: Element) returns (error: Option<ReaderError>)
      modifies this
      ensures FailureStep(reading, old(State()), el) ==
              if error.Some? then Abort(State(), error.value) else Continue(State())
    {
      match FailureRouteWith(reading, el)
      case TlsFailure =>
        error := Some(TlsNegotiationFailed);
      case CompressionFailure =>
        log := log + [StreamCompressionDenied];
        error := None;
      case SaslFailure =>
        var failure := Sasl.FailureOfElement(el);
        ProcessPacket(Some(FailurePacket(failure)));
        log := log + [AuthenticationFailed(failure.condition)];
        error := None;
    }

    /** parseChallenge. */
    method ParseChallenge(doc: Element)
      modifies this
      ensures State() == ChallengeStep(old(State()), doc)
    {
      var challengeData := doc.text;
      ProcessPacket(Some(ChallengePacket(doc)));
      log := log + [ChallengeReceived(challengeData)];
    }

    /** parseSuccess. */
    method ParseSuccess(doc: Element)
      modifies this
      ensures State() == SuccessStep(old(State()), doc)
    {
      ProcessPacket(Some(SuccessPacket(doc)));
      log := log + [OpenStream];
      assert State() == Emit(old(State()), [Delivered(SuccessPacket(doc)), OpenStream]);
      ResetParser();
      log := log + [Authenticated];
    }

    /** The catch block of parsePackets. */
    method ReportError(e: ReaderError)
      modifies this
      ensures State() == ErrorReported(old(State()), e, connection)
    {
      if !(done || connection.isSocketClosed(log)) {
        log := log + [ConnectionError(e)];
      }
    }

    /**
     * The body of the parsePackets loop for one element: dispatch on its
     * tag, then hand the stanza built (if any) to processPacket; an error
     * is returned instead of thrown.
     */
    method ReadElement(doc: Element) returns (error: Option<ReaderError>)
      modifies this
      ensures Dispatch(reading, old(State()), doc, connection) ==
              if error.Some? then Abort(State(), error.value) else Continue(State())
    {
      var packet: Option<Packet> := None;
      error := None;
      var tag := doc.name;
      if tag == "message" {
        packet := Some(MessagePacket(doc));
      } else if tag == "presence" {
        packet := Some(PresencePacket(doc));
      } else if tag == "iq" {
        packet := Some(IqPacket(IqKindWith(reading, doc), doc));
      } else if tag == "error" {
        return Some(StreamErrorOf(reading, doc));
      } else {
        error := ReadNegotiation(doc);
        if error.Some? {
          return;
        }
      }
      ProcessPacket(packet);
    }

    /** The branches of the dispatch for the stream-negotiation tags, and for an unknown tag. */
    method ReadNegotiation(doc: Element) returns (error: Option<ReaderError>)
      requires doc.name !in {"message", "presence", "iq", "error"}
      modifies this
      ensures Dispatch(reading, old(State()), doc, connection) ==
              if error.Some? then Abort(State(), error.value) else Continue(State())
    {
      error := None;
      var tag := doc.name;
      if tag == "features" {
        error := ParseFeatures(doc);
      } else if tag == "proceed" {
        log := log + [ProceedTlsReceived];
        ResetParser();
      } else if tag == "failure" {
        error := ParseFailure(doc);
      } else if tag == "challenge" {
        ParseChallenge(doc);
      } else if tag == "success" {
        ParseSuccess(doc);
      } else if tag == "compressed" {
        log := log + [StartStreamCompression];
        ResetParser();
      } else {
        error := Some(UnknownPacketType(tag));
      }
    }

    /** parsePackets. */
    method ParsePackets()
      modifies this
      ensures State() == Run(reading, old(State()), connection)
    {
      while !done
        invariant Run(reading, State(), connection) == Run(reading, old(State()), connection)
        decreases |docs|
      {
        if |docs| == 0 {
          ReportError(EndOfStream);
          return;
        }
        var d := docs[0];
        docs := docs[1..];
        if d.None? {
          log := log + [Disconnect];
          continue;
        }
        var error := ReadElement(d.value);
        if error.Some? {
          ReportError(error.value);
          return;
        }
      }
    }
  }
}
