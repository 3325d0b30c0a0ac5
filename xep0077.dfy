/**
 * The in-band registration plugin of XEP-0077 on the client side: it
 * recognises registration IQs and the stream feature, and builds the
 * `set` requests that create an account, change its password or remove it.
 * The reply round trip (SyncPacketSend.getReply) is an oracle: the reply
 * element, or None when the library throws an XMPPException.
 */
module InBandRegistration {
  import opened Wrappers
  import opened Xml
  import opened Jids
  import opened IqStanzas
  import PacketReader
  import Registration

  const FEATURE_NS := "http://jabber.org/features/iq-register"

  /**
   * parse: an `iq` whose first `query` child is in jabber:iq:register is
   * wrapped, unchanged, as a Registration; anything else is not this plugin's.
   * These are exactly the IQs the packet reader classifies by their query as
   * registrations.
   */
  function Parse(el: Element): (r: Option<Element>)
    ensures r.Some? <==> el.name == "iq" && Child(el, "query").Some? && Child(el, "query").value.ns == Registration.NAMESPACE
    ensures r.Some? <==> el.name == "iq" && PacketReader.QueryKind(el) == PacketReader.RegistrationIq
    ensures r.Some? ==> r.value == el
  {
    if el.name != "iq" then None
    else
      match Child(el, "query")
      case Some(query) => if query.ns == Registration.NAMESPACE then Some(el) else None
      case None => None
  }

  /** What `new Registration()` builds is accepted by parse. */
  lemma ParseAcceptsNewRegistration(id: string)
    ensures Parse(Registration.NewRegistration(id)) == Some(Registration.NewRegistration(id))
  {
    assert FirstNamed(Registration.NewRegistration(id).children, "query") == Some(0);
  }

  /** supports: the features offer `register` (its first such child) in the iq-register namespace. */
  function Supports(featuresEl: Element): (r: bool)
    ensures r <==> Child(featuresEl, "register").Some? && Child(featuresEl, "register").value.ns == FEATURE_NS
  {
    match Child(featuresEl, "register")
    case Some(registerEl) => registerEl.ns == FEATURE_NS
    case None => false
  }

  /**
   * The plugin compares the namespace URI as a string, so it agrees with the
   * packet reader's account-creation feature read by URI.
   */
  lemma SupportsAgreesWithReader(featuresEl: Element)
    ensures Supports(featuresEl) <==>
      PacketReader.AccountCreationSupported in PacketReader.FeatureEvents(PacketReader.AsIntended, featuresEl)
  {
    var reading := PacketReader.AsIntended;
    var e := PacketReader.AccountCreationSupported;
    var first := PacketReader.StartTlsEvents(reading, featuresEl);
    var mechanisms := PacketReader.MechanismEvents(reading, featuresEl);
    var bind := PacketReader.IfOffered(reading, featuresEl, "bind", PacketReader.BIND_NS, PacketReader.BindingRequired);
    var caps := PacketReader.CapsEvents(reading, featuresEl);
    var session := PacketReader.IfOffered(reading, featuresEl, "session", PacketReader.SESSION_NS, PacketReader.SessionsSupported);
    var ver := PacketReader.IfOffered(reading, featuresEl, "ver", PacketReader.ROSTER_VER_NS, PacketReader.RosterVersioningSupported);
    var compression := PacketReader.CompressionEvents(reading, featuresEl);
    var register := PacketReader.IfOffered(reading, featuresEl, "register", PacketReader.REGISTER_FEATURE_NS, e);
    assert PacketReader.FeatureEvents(reading, featuresEl) == first + (mechanisms + bind + caps + session + ver + compression + register);
    assert e !in first && e !in mechanisms && e !in bind && e !in caps;
    assert e !in session && e !in ver && e !in compression;
    assert e in register <==> Supports(featuresEl);
  }

  /** Why a call of the plugin throws. */
  datatype AccountError =
    | NotSupported      // XMPPException: the server does not support account creation
    | NotLoggedIn       // IllegalStateException: deleting an account needs a logged-in connection
    | NoReply           // XMPPException from the reply round trip
    | NoQuery           // NullPointerException: a registration reply without a `query` child
    | NullText          // a `null` attribute value reaching updateText
    | NoAttributes      // NullPointerException: a lookup in the null getAttributes returns for a query without attributes

  /**
   * getAccountAttributes on a registration reply: the names getAttributes
   * finds (every child of the query except `instructions`), or none when it
   * finds none.
   */
  function AccountAttributeNames(reply: Element): (r: Result<set<string>, AccountError>)
    ensures r.Err? <==> FirstNamed(reply.children, "query").None?
    ensures r.Ok? ==> forall k :: k in r.value <==>
      var query := reply.children[FirstNamed(reply.children, "query").value];
      k != Registration.INSTRUCTIONS && exists i :: 0 <= i < |query.children| && query.children[i].name == k
  {
    match FirstNamed(reply.children, "query")
    case None => Err(NoQuery)
    case Some(at) =>
      var cs := reply.children[at].children;
      Registration.AttributesOfKeys(cs);
      Ok(Registration.MapOf(Registration.AttributesOf(cs)).Keys)
  }

  /**
   * getAccountAttribute on a registration reply: the value getAttributes
   * maps the name to, or null when it maps it to nothing. When getAttributes
   * itself is null (no child but `instructions`) the lookup throws.
   */
  function AccountAttributeValue(reply: Element, name: string): (r: Result<Option<string>, AccountError>)
    ensures r.Err? <==> (FirstNamed(reply.children, "query").None? ||
                         Registration.AttributesOf(reply.children[FirstNamed(reply.children, "query").value].children).None?)
    ensures r.Ok? ==> AccountAttributeNames(reply).Ok? && (r.value.Some? <==> name in AccountAttributeNames(reply).value)
  {
    match FirstNamed(reply.children, "query")
    case None => Err(NoQuery)
    case Some(at) =>
      match Registration.AttributesOf(reply.children[at].children)
      case None => Err(NoAttributes)
      case Some(m) => Ok(if name in m then Some(m[name]) else None)
  }

  /** getAccountAttribute gives the text of the last child of the query with that name. */
  lemma AccountAttributeIsLastChild(reply: Element, name: string, i: nat)
    requires FirstNamed(reply.children, "query").Some?
    requires var q := reply.children[FirstNamed(reply.children, "query").value];
      i < |q.children| && q.children[i].name == name && name != Registration.INSTRUCTIONS
      && forall j :: i < j < |q.children| ==> q.children[j].name != name
    ensures var q := reply.children[FirstNamed(reply.children, "query").value];
      AccountAttributeValue(reply, name) == Ok(Some(q.children[i].text))
  {
    var q := reply.children[FirstNamed(reply.children, "query").value];
    Registration.AttributesOfLastWins(q.children, i);
  }

  /** createAccount's attribute map: the caller's, with `username` and `password` put over it. */
  function AccountAttributes(attributes: map<string, string>, username: string, password: string): map<string, string>
  {
    attributes["username" := username]["password" := password]
  }

  /** `username` and `password` override the caller's entries of those names; every other entry is the caller's. */
  lemma AccountAttributesOverride(attributes: map<string, string>, username: string, password: string)
    ensures var r := AccountAttributes(attributes, username, password);
      && "username" in r && r["username"] == username
      && "password" in r && r["password"] == password
      && (forall k :: k != "username" && k != "password" ==> (k in r <==> k in attributes))
      && (forall k :: k in attributes && k != "username" && k != "password" ==> r[k] == attributes[k])
  {
  }

  /**
   * A registration `set` sent to `to` whose query carries exactly the
   * entries of `m`, each as a child holding its value, so that getAttributes
   * on it reads back `m` (less `instructions`).
   */
  ghost predicate RegistrationSet(e: Element, id: string, to: string, m: map<string, string>)
  {
    && e.name == "iq"
    && AttrValue(e.attrs, "type") == Some("set")
    && AttrValue(e.attrs, "id") == Some(id)
    && AttrValue(e.attrs, "to") == Some(to)
    && |e.children| == 1
    && e.children[0].name == "query" && e.children[0].ns == Registration.NAMESPACE
    && (forall k :: k in m ==> ElementText(e.children[0], k) == Some(m[k]))
    && (forall n :: n !in m ==> Child(e.children[0], n).None?)
    && Registration.MapOf(Registration.AttributesOf(e.children[0].children)) == m - {Registration.INSTRUCTIONS}
  }

  /**
   * A query written from scratch holds exactly the entries written: each
   * one's text is readable, no other child exists, and the attributes read
   * back are the entries other than `instructions`.
   */
  lemma WrittenFromScratch(q: Element, m: map<string, string>)
    requires Registration.WrittenTexts(Leaf("query", Registration.NAMESPACE), q, m)
    requires Registration.WrittenAttributes(Leaf("query", Registration.NAMESPACE), q, m)
    ensures q.name == "query" && q.ns == Registration.NAMESPACE
    ensures forall k :: k in m ==> ElementText(q, k) == Some(m[k])
    ensures forall n :: n !in m ==> Child(q, n).None?
    ensures Registration.MapOf(Registration.AttributesOf(q.children)) == m - {Registration.INSTRUCTIONS}
  {
    var w := m - {Registration.INSTRUCTIONS};
    assert Registration.UniqueNames(Leaf("query", Registration.NAMESPACE).children);
    assert Registration.AttributesOf([]) == None;
    assert w != map[] ==> map[] + w == w;
    forall n | n !in m
      ensures Child(q, n).None?
    {
      assert Child(Leaf("query", Registration.NAMESPACE), n).None?;
    }
  }

  /** Every name in `names` mapped to the empty string. */
  ghost function Blank(names: set<string>): map<string, string>
  {
    map k | k in names :: ""
  }

  /** The names getAccountAttributes returns when it does not throw. */
  ghost function AdvertisedNames(infoReply: Option<Element>): set<string>
  {
    if infoReply.None? || AccountAttributeNames(infoReply.value).Err? then {} else AccountAttributeNames(infoReply.value).value
  }

  /** The loop of createAccount(bareJid, password): every advertised name maps to the empty string. */
  method BlankAttributes(names: set<string>) returns (attributes: map<string, string>)
    ensures attributes.Keys == names
    ensures forall k :: k in attributes ==> attributes[k] == ""
    ensures attributes == Blank(names)
  {
    attributes := map[];
    var remaining := names;
    while remaining != {}
      invariant remaining <= names
      invariant forall k :: k in attributes ==> k in names && k !in remaining && attributes[k] == ""
      invariant forall k :: k in names ==> k in remaining || k in attributes
      decreases |remaining|
    {
      var name :| name in remaining;
      attributes := attributes[name := ""];
      remaining := remaining - {name};
    }
  }

  /** The registration set that sendRegistration builds: `new Registration()`, type set, addressed to `to`, `attributes` written. */
  method BuildRegistration(id: string, to: string, attributes: map<string, string>) returns (request: Element)
    ensures RegistrationSet(request, id, to, attributes)
  {
    var reg := new Registration.Registration(id);
    reg.element := WithTo(WithType(reg.element, Set), to);
    ghost var e0 := reg.element;
    assert reg.Query() == Leaf("query", Registration.NAMESPACE);
    var written := reg.SetAttributes(attributes);
    RegistrationSetHolds(e0, reg.Query(), id, to, attributes);
    request := reg.element;
  }

  /** Putting a query written from scratch into a fresh registration of type set gives a registration set of exactly those entries. */
  lemma RegistrationSetHolds(e0: Element, q: Element, id: string, to: string, m: map<string, string>)
    requires e0.name == "iq" && e0.children == [Leaf("query", Registration.NAMESPACE)]
    requires AttrValue(e0.attrs, "type") == Some("set") && AttrValue(e0.attrs, "id") == Some(id)
    requires AttrValue(e0.attrs, "to") == Some(to)
    requires Registration.WrittenTexts(Leaf("query", Registration.NAMESPACE), q, m)
    requires Registration.WrittenAttributes(Leaf("query", Registration.NAMESPACE), q, m)
    ensures RegistrationSet(e0.(children := e0.children[0 := q]), id, to, m)
  {
    WrittenFromScratch(q, m);
  }

  class Xep0077 {
    /** connection.getServiceName(): every request is addressed to it. */
    const serviceName: string
    /** AbstractPlugin.isSupported: what supports said of the last stream features. */
    var isSupported: bool
    /** The requests handed to the reply round trip, in order. */
    var sent: seq<Element>

    constructor (serviceName: string)
      ensures this.serviceName == serviceName && !isSupported && sent == []
    {
      this.serviceName := serviceName;
      isSupported := false;
      sent := [];
    }

    /** checkSupport: remembers whether the stream features offer registration. */
    method CheckSupport(featuresEl: Element)
      modifies this
      ensures isSupported == Supports(featuresEl)
      ensures sent == old(sent)
    {
      isSupported := Supports(featuresEl);
    }

    /**
     * Builds `new Registration()` of type set, addressed to the service,
     * writes `attributes` with setAttributes and sends it.
     */
    method SendRegistration(id: string, attributes: map<string, string>, reply: Option<Element>)
      returns (outcome: Outcome<AccountError>)
      modifies this
      ensures isSupported == old(isSupported)
      ensures |sent| == |old(sent)| + 1 && sent[..|old(sent)|] == old(sent)
      ensures RegistrationSet(sent[|old(sent)|], id, serviceName, attributes)
      ensures outcome.Pass? <==> reply.Some?
      ensures outcome.Fail? ==> outcome.error == NoReply
    {
      var request := BuildRegistration(id, serviceName, attributes);
      sent := sent + [request];
      outcome := if reply.Some? then Pass else Fail(NoReply);
    }

    /** getAccountAttributes: asks the service for its registration form and returns the names in it. */
    method GetAccountAttributes(id: string, reply: Option<Element>) returns (r: Result<set<string>, AccountError>)
      modifies this
      ensures isSupported == old(isSupported)
      ensures sent == old(sent) + [WithTo(Registration.NewRegistration(id), serviceName)]
      ensures reply.None? ==> r == Ok({})
      ensures reply.Some? ==> r == AccountAttributeNames(reply.value)
      ensures r.Ok? ==> r.value == AdvertisedNames(reply)
    {
      var request := new Registration.Registration(id);
      request.element := WithTo(request.element, serviceName);
      sent := sent + [request.element];
      if reply.None? {
        return Ok({});
      }
      var info := new Registration.Registration.Wrap(reply.value);
      var attributes := info.GetAttributes();
      if attributes.Err? {
        return Err(NoQuery);
      }
      Registration.AttributesOfKeys(info.Query().children);
      r := Ok(Registration.MapOf(attributes.value).Keys);
    }

    /** getAccountAttribute: asks the service for its registration form and looks the name up in it. */
    method GetAccountAttribute(id: string, name: string, reply: Option<Element>) returns (r: Result<Option<string>, AccountError>)
      modifies this
      ensures isSupported == old(isSupported)
      ensures sent == old(sent) + [WithTo(Registration.NewRegistration(id), serviceName)]
      ensures reply.None? ==> r == Ok(None)
      ensures reply.Some? ==> r == AccountAttributeValue(reply.value, name)
    {
      var request := new Registration.Registration(id);
      request.element := WithTo(request.element, serviceName);
      sent := sent + [request.element];
      if reply.None? {
        return Ok(None);
      }
      var info := new Registration.Registration.Wrap(reply.value);
      var attributes := info.GetAttributes();
      if attributes.Err? {
        return Err(NoQuery);
      }
      if attributes.value.None? {
        return Err(NoAttributes);
      }
      var m := attributes.value.value;
      r := Ok(if name in m then Some(m[name]) else None);
    }

    /**
     * createAccount(bareJid, password, attributes): refused before anything
     * is built when the feature is not supported; otherwise a registration
     * set carrying the attributes with the account's node as `username` and
     * the password. A bare JID without a node puts a null text.
     */
    method CreateAccount(id: string, bareJid: Jid, password: string, attributes: map<string, string>, reply: Option<Element>)
      returns (outcome: Outcome<AccountError>)
      modifies this
      ensures isSupported == old(isSupported)
      ensures !isSupported ==> outcome == Fail(NotSupported) && sent == old(sent)
      ensures isSupported && bareJid.node.None? ==> outcome == Fail(NullText) && sent == old(sent)
      ensures isSupported && bareJid.node.Some? ==>
        && |sent| == |old(sent)| + 1 && sent[..|old(sent)|] == old(sent)
        && RegistrationSet(sent[|old(sent)|], id, serviceName, AccountAttributes(attributes, bareJid.node.value, password))
        && (outcome.Pass? <==> reply.Some?)
    {
      if !isSupported {
        return Fail(NotSupported);
      }
      if bareJid.node.None? {
        return Fail(NullText);
      }
      outcome := SendRegistration(id, AccountAttributes(attributes, bareJid.node.value, password), reply);
    }

    /**
     * createAccount(bareJid, password): fetches the advertised names and
     * registers with each of them empty, then as createAccount above.
     * `request` is the registration sent.
     */
    method CreateAccountWithDefaults(infoId: string, infoReply: Option<Element>, id: string, bareJid: Jid, password: string, reply: Option<Element>)
      returns (outcome: Outcome<AccountError>, ghost request: Element)
      modifies this
      ensures isSupported == old(isSupported)
      ensures !isSupported ==> outcome == Fail(NotSupported) && sent == old(sent)
      ensures isSupported && infoReply.Some? && AccountAttributeNames(infoReply.value).Err? ==>
        outcome == Fail(NoQuery) && sent == old(sent) + [WithTo(Registration.NewRegistration(infoId), serviceName)]
      ensures isSupported && bareJid.node.None? && (infoReply.None? || AccountAttributeNames(infoReply.value).Ok?) ==>
        outcome == Fail(NullText) && sent == old(sent) + [WithTo(Registration.NewRegistration(infoId), serviceName)]
      ensures isSupported && bareJid.node.Some? && (infoReply.None? || AccountAttributeNames(infoReply.value).Ok?) ==>
        && sent == old(sent) + [WithTo(Registration.NewRegistration(infoId), serviceName)] + [request]
        && RegistrationSet(request, id, serviceName, AccountAttributes(Blank(AdvertisedNames(infoReply)), bareJid.node.value, password))
        && (outcome.Pass? <==> reply.Some?)
    {
      request := Leaf("iq", "");
      if !isSupported {
        return Fail(NotSupported), request;
      }
      var names := GetAccountAttributes(infoId, infoReply);
      if names.Err? {
        return Fail(names.error), request;
      }
      outcome, request := CreateAccountBlank(id, bareJid, password, infoReply, names.value, reply);
    }

    /** The rest of createAccount(bareJid, password): the advertised names, all empty, go to createAccount. */
    method CreateAccountBlank(id: string, bareJid: Jid, password: string, ghost infoReply: Option<Element>, names: set<string>,
                              reply: Option<Element>)
      returns (outcome: Outcome<AccountError>, ghost request: Element)
      requires names == AdvertisedNames(infoReply)
      modifies this
      ensures isSupported == old(isSupported)
      ensures !isSupported ==> outcome == Fail(NotSupported) && sent == old(sent)
      ensures isSupported && bareJid.node.None? ==> outcome == Fail(NullText) && sent == old(sent)
      ensures isSupported && bareJid.node.Some? ==>
        && sent == old(sent) + [request]
        && RegistrationSet(request, id, serviceName, AccountAttributes(Blank(AdvertisedNames(infoReply)), bareJid.node.value, password))
        && (outcome.Pass? <==> reply.Some?)
    {
      var attributes := BlankAttributes(names);
      outcome := CreateAccount(id, bareJid, password, attributes, reply);
      request := if |sent| > |old(sent)| then sent[|old(sent)|] else Leaf("iq", "");
    }

    /** changePassword: a registration set with the user's node as `username` and the new password. */
    method ChangePassword(id: string, username: string, newPassword: string, reply: Option<Element>)
      returns (outcome: Outcome<AccountError>)
      modifies this
      ensures isSupported == old(isSupported)
      ensures |sent| == |old(sent)| + 1 && sent[..|old(sent)|] == old(sent)
      ensures RegistrationSet(sent[|old(sent)|], id, serviceName, map["username" := username, "password" := newPassword])
      ensures outcome.Pass? <==> reply.Some?
    {
      outcome := SendRegistration(id, map["username" := username, "password" := newPassword], reply);
    }

    /** deleteAccount: refused unless logged in; otherwise a registration set whose only entry is `remove`. */
    method DeleteAccount(id: string, authenticated: bool, reply: Option<Element>)
      returns (outcome: Outcome<AccountError>)
      modifies this
      ensures isSupported == old(isSupported)
      ensures !authenticated ==> outcome == Fail(NotLoggedIn) && sent == old(sent)
      ensures authenticated ==>
        && |sent| == |old(sent)| + 1 && sent[..|old(sent)|] == old(sent)
        && RegistrationSet(sent[|old(sent)|], id, serviceName, map["remove" := ""])
        && (outcome.Pass? <==> reply.Some?)
    {
      if !authenticated {
        return Fail(NotLoggedIn);
      }
      outcome := SendRegistration(id, map["remove" := ""], reply);
    }
  }
}
