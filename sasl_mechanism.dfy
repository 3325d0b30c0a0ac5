/**
 * The client side of SASL negotiation (section 6.4 of RFC 6120): the frames
 * `auth`, `challenge`, `response`, `success` and `failure`, the exchange a
 * mechanism drives through its SaslClient, and the callback handler the
 * SaslClient asks for the user's name, password and realm.
 *
 * The SaslClient, the Base64 codec and the callback objects are not part of
 * this model: the client is an oracle whose answer depends on every
 * challenge it has been asked so far.
 */
module Sasl {
  import opened Wrappers
  import opened Xml

  const SASL_NS := "urn:ietf:params:xml:ns:xmpp-sasl"

  newtype byte = x: int | 0 <= x < 256

  type Bytes = seq<byte>

  /** StringUtils.encodeBase64 (without line breaks) and decodeBase64. */
  datatype Base64 = Base64(encode: Bytes -> string, decode: string -> Bytes)

  /** Why an operation threw. */
  datatype SaslError =
    | NullPointer
    | SaslExceptionThrown                 // a SaslException from the SaslClient, passed on as an IOException
    | AuthenticationFailed                // XMPPException "SASL authentication failed"
    | UnsupportedCallback(callback: Callback)

  /**
   * A SaslClient: whether it starts with an initial response, and what it
   * answers (a response, null, or a SaslException) given all the
   * challenges evaluated so far, the latest last.
   */
  datatype SaslClient = SaslClient(hasInitialResponse: bool, evaluate: seq<Bytes> -> Result<Option<Bytes>, SaslError>)

  /** Which callback handler a SaslClient was created with. */
  datatype HandlerRef = ThisMechanism | CallerHandler(id: nat)

  /** The arguments of Sasl.createSaslClient. */
  datatype ClientRequest = ClientRequest(mechanisms: seq<Option<string>>, authorizationId: Option<string>, protocol: string,
                                         serverName: Option<string>, props: map<string, string>, handler: HandlerRef)

  // ---------------------------------------------------------------------
  // Frame builders
  // ---------------------------------------------------------------------

  /** createAuthEl: `<auth mechanism=name>text</auth>`; a null name throws. */
  function AuthEl(name: Option<string>, authenticationText: Option<string>): (r: Result<Element, SaslError>)
    ensures r.Err? <==> name.None?
    ensures r.Err? ==> r.error == NullPointer
    ensures r.Ok? ==> r.value.name == "auth" && r.value.ns == SASL_NS && r.value.children == []
    ensures r.Ok? ==> AttrValue(r.value.attrs, "mechanism") == name
    ensures r.Ok? ==> r.value.text == (if authenticationText.Some? then authenticationText.value else "")
  {
    match name
    case None => Err(NullPointer)
    case Some(n) =>
      Ok(Element("auth", SASL_NS, SetAttr([], "mechanism", n), [], if authenticationText.Some? then authenticationText.value else ""))
  }

  /** createChallengeEl: `<challenge>data</challenge>`, empty for null data. */
  function ChallengeEl(data: Option<string>): (r: Element)
    ensures r.name == "challenge" && r.ns == SASL_NS && r.attrs == [] && r.children == []
    ensures data.Some? ==> r.text == data.value
    ensures data.None? ==> r.text == ""
  {
    Element("challenge", SASL_NS, [], [], if data.Some? then data.value else "")
  }

  /** createResponseEl: `<response>text</response>`, with text only when it is non-null and non-empty. */
  function ResponseEl(authenticationText: Option<string>): (r: Element)
    ensures r.name == "response" && r.ns == SASL_NS && r.attrs == [] && r.children == []
    ensures r.text == (if authenticationText.Some? then authenticationText.value else "")
  {
    if authenticationText.Some? && authenticationText.value != "" then
      Element("response", SASL_NS, [], [], authenticationText.value)
    else
      Leaf("response", SASL_NS)
  }

  /** Response("") and Response() build the same frame. */
  lemma EmptyResponseIsNoResponse()
    ensures ResponseEl(Some("")) == ResponseEl(None)
  {
  }

  /** String.trim: drops leading and trailing characters up to and including the space. */
  function Trim(s: string): (r: string)
    ensures |r| <= |s|
    decreases |s|
  {
    if |s| == 0 then s
    else if s[0] <= ' ' then Trim(s[1..])
    else if s[|s| - 1] <= ' ' then Trim(s[..|s| - 1])
    else s
  }

  /** A string is blank (trims to nothing) iff every character is at most the space. */
  predicate Blank(s: string)
  {
    forall i :: 0 <= i < |s| ==> s[i] <= ' '
  }

  lemma {:induction false} TrimEmptyIffBlank(s: string)
    ensures |Trim(s)| == 0 <==> Blank(s)
    decreases |s|
  {
    if |s| == 0 {
    } else if s[0] <= ' ' {
      TrimEmptyIffBlank(s[1..]);
      assert Blank(s) <==> Blank(s[1..]) by {
        if Blank(s[1..]) {
          forall i | 0 <= i < |s| ensures s[i] <= ' ' {
            if i > 0 { assert s[i] == s[1..][i - 1]; }
          }
        }
      }
    } else if s[|s| - 1] <= ' ' {
      TrimEmptyIffBlank(s[..|s| - 1]);
      assert !Blank(s) && !Blank(s[..|s| - 1]) by {
        assert s[..|s| - 1][0] == s[0];
      }
    } else {
      assert !Blank(s) by { assert s[0] > ' '; }
    }
  }

  /**
   * Failure.createEl: `<failure>` in the SASL namespace, holding an empty
   * child named after the condition when the condition is non-null and not
   * blank.
   */
  function FailureEl(condition: Option<string>): (r: Element)
    ensures r.name == "failure" && r.ns == SASL_NS && r.attrs == [] && r.text == ""
    ensures |r.children| <= 1
  {
    if condition.Some? && |Trim(condition.value)| > 0 then
      Element("failure", SASL_NS, [], [Leaf(condition.value, SASL_NS)], "")
    else
      Leaf("failure", SASL_NS)
  }

  /** A SASL failure: its frame and its condition. */
  datatype Failure = Failure(element: Element, condition: Option<string>)

  /** Failure(String): the built frame, keeping the condition as given. */
  function FailureOfCondition(condition: Option<string>): (r: Failure)
    ensures r.condition == condition && r.element == FailureEl(condition)
  {
    Failure(FailureEl(condition), condition)
  }

  /** Failure(Element): the condition is the name of the first child element, null when there is none. */
  function FailureOfElement(el: Element): (r: Failure)
    ensures r.element == el
    ensures r.condition.None? <==> |el.children| == 0
    ensures r.condition.Some? ==> r.condition.value == el.children[0].name
  {
    Failure(el, if |el.children| == 0 then None else Some(el.children[0].name))
  }

  /**
   * Sending Failure(c) and reading the frame back gives c when c is
   * non-null and not blank, and null otherwise.
   */
  lemma FailureConditionRoundTrip(c: Option<string>)
    ensures c.Some? && !Blank(c.value) ==> FailureOfElement(FailureEl(c)).condition == c
    ensures c.None? || Blank(c.value) ==> FailureOfElement(FailureEl(c)).condition.None?
  {
    if c.Some? {
      TrimEmptyIffBlank(c.value);
    }
  }

  // ---------------------------------------------------------------------
  // The exchange
  // ---------------------------------------------------------------------

  /**
   * What authenticate() sends: when the client has an initial response it
   * evaluates an empty challenge and Base64-encodes the answer (a
   * SaslException becomes AuthenticationFailed and nothing is sent);
   * otherwise `auth` carries no text. Evaluating is what `history` records.
   */
  function InitialAuth(name: Option<string>, client: SaslClient, history: seq<Bytes>, codec: Base64): (r: Result<Element, SaslError>)
    ensures r.Ok? ==> name.Some? && r.value.name == "auth" && AttrValue(r.value.attrs, "mechanism") == name
    ensures !client.hasInitialResponse ==> r == AuthEl(name, None)
    ensures client.hasInitialResponse && client.evaluate(history + [[]]).Err? ==> r == Err(AuthenticationFailed)
    ensures client.hasInitialResponse ==> match client.evaluate(history + [[]])
      case Ok(Some(bytes)) => r == AuthEl(name, Some(codec.encode(bytes)))
      case Ok(None) => r == Err(NullPointer)
      case Err(_) => r == Err(AuthenticationFailed)
  {
    if !client.hasInitialResponse then AuthEl(name, None)
    else
      match client.evaluate(history + [[]])
      case Err(_) => Err(AuthenticationFailed)
      case Ok(None) => Err(NullPointer)   // encodeBase64 dereferences the array
      case Ok(Some(bytes)) => AuthEl(name, Some(codec.encode(bytes)))
  }

  /** The bytes challengeReceived evaluates: the decoded payload, or nothing for a null challenge. */
  function ChallengeBytes(challenge: Option<string>, codec: Base64): Bytes
  {
    if challenge.Some? then codec.decode(challenge.value) else []
  }

  /**
   * The frame challengeReceived sends: a `response` holding the encoded
   * answer, an empty `response` when the client answers null, or the
   * client's SaslException.
   */
  function ResponseTo(challenge: Option<string>, client: SaslClient, history: seq<Bytes>, codec: Base64): (r: Result<Element, SaslError>)
    ensures r.Ok? ==> r.value.name == "response" && r.value.ns == SASL_NS && r.value.children == []
    ensures r.Err? <==> client.evaluate(history + [ChallengeBytes(challenge, codec)]).Err?
    ensures client.evaluate(history + [ChallengeBytes(challenge, codec)]) == Ok(None) ==> r == Ok(ResponseEl(None))
    ensures match client.evaluate(history + [ChallengeBytes(challenge, codec)])
      case Ok(Some(bytes)) => r == Ok(ResponseEl(Some(codec.encode(bytes))))
      case Ok(None) => r == Ok(ResponseEl(None))
      case Err(e) => r == Err(e)
  {
    match client.evaluate(history + [ChallengeBytes(challenge, codec)])
    case Err(e) => Err(e)
    case Ok(None) => Ok(ResponseEl(None))
    case Ok(Some(bytes)) => Ok(ResponseEl(Some(codec.encode(bytes))))
  }

  /** A javax.security.auth callback, with the field the handler fills in. */
  datatype Callback =
    | NameCallback(prompt: string, name: Option<string>)
    | PasswordCallback(prompt: string, password: Option<string>)
    | RealmCallback(prompt: string, defaultText: Option<string>, text: Option<string>)
    | RealmChoiceCallback(prompt: string, choices: seq<string>)
    | OtherCallback(kind: string)

  /**
   * How handle answers one callback: the name gets the authentication id,
   * the password gets the password (a null password throws), the realm
   * echoes its default text, a realm choice is left alone, and any other
   * callback is unsupported.
   */
  function Answer(cb: Callback, authenticationId: Option<string>, password: Option<string>): (r: Result<Callback, SaslError>)
    ensures cb.NameCallback? ==> r == Ok(cb.(name := authenticationId))
    ensures cb.PasswordCallback? ==> (r.Ok? <==> password.Some?) && (r.Ok? ==> r.value == cb.(password := password))
    ensures cb.RealmCallback? ==> r == Ok(cb.(text := cb.defaultText))
    ensures cb.RealmChoiceCallback? ==> r == Ok(cb)
    ensures cb.OtherCallback? ==> r == Err(UnsupportedCallback(cb))
  {
    match cb
    case NameCallback(_, _) => Ok(cb.(name := authenticationId))
    case PasswordCallback(_, _) => if password.None? then Err(NullPointer) else Ok(cb.(password := password))
    case RealmCallback(_, d, _) => Ok(cb.(text := d))
    case RealmChoiceCallback(_, _) => Ok(cb)
    case OtherCallback(_) => Err(UnsupportedCallback(cb))
  }

  /** A concrete SASLMechanism (getName() gives `name`) and the SASLAuthentication it sends through. */
  class SaslMechanism {
    const name: Option<string>
    const createSaslClient: ClientRequest -> Option<SaslClient>
    const codec: Base64
    var sc: Option<SaslClient>
    var authenticationId: Option<string>
    var password: Option<string>
    var hostname: Option<string>
    /** The challenges the current SaslClient has evaluated, in order; a new client starts with none. */
    var history: seq<Bytes>
    /** The frames handed to SASLAuthentication.send, in order. */
    var sent: seq<Element>

    constructor (name: Option<string>, createSaslClient: ClientRequest -> Option<SaslClient>, codec: Base64)
      ensures this.name == name && this.createSaslClient == createSaslClient && this.codec == codec
      ensures sc.None? && authenticationId.None? && password.None? && hostname.None?
      ensures history == [] && sent == []
    {
      this.name := name;
      this.createSaslClient := createSaslClient;
      this.codec := codec;
      sc := None;
      authenticationId := None;
      password := None;
      hostname := None;
      history := [];
      sent := [];
    }

    /**
     * authenticate(): sends `auth`, with the initial response when the
     * client has one. A missing client throws before anything happens.
     */
    method Authenticate() returns (r: Outcome<SaslError>)
      modifies this
      ensures sc == old(sc) && authenticationId == old(authenticationId) && password == old(password) && hostname == old(hostname)
      ensures old(sc).None? ==> r == Fail(NullPointer) && history == old(history) && sent == old(sent)
      ensures old(sc).Some? ==>
        var spec := InitialAuth(name, old(sc).value, old(history), codec);
        history == old(history) + (if old(sc).value.hasInitialResponse then [[]] else [])
        && (r.Pass? <==> spec.Ok?)
        && (spec.Ok? ==> sent == old(sent) + [spec.value])
        && (spec.Err? ==> r == Fail(spec.error) && sent == old(sent))
    {
      if sc.None? {
        return Fail(NullPointer);
      }
      var client := sc.value;
      var authenticationText: Option<string> := None;
      if client.hasInitialResponse {
        var response := client.evaluate(history + [[]]);
        history := history + [[]];
        if response.Err? {
          return Fail(AuthenticationFailed);
        }
        if response.value.None? {
          return Fail(NullPointer);
        }
        authenticationText := Some(codec.encode(response.value.value));
      }
      var auth := AuthEl(name, authenticationText);
      if auth.Err? {
        return Fail(auth.error);
      }
      sent := sent + [auth.value];
      r := Pass;
    }

    /**
     * authenticate(username, host, serviceName, password): remembers the
     * credentials for the callbacks, creates a client for this mechanism
     * handled by this object, and authenticates.
     */
    method AuthenticateWithPassword(username: Option<string>, host: Option<string>, serviceName: Option<string>, pw: Option<string>)
      returns (r: Outcome<SaslError>)
      modifies this
      ensures authenticationId == username && password == pw && hostname == host
      ensures sc == createSaslClient(ClientRequest([name], username, "xmpp", serviceName, map[], ThisMechanism))
      ensures sc.None? ==> r == Fail(NullPointer) && sent == old(sent)
      ensures sc.Some? ==>
        var spec := InitialAuth(name, sc.value, [], codec);
        (r.Pass? <==> spec.Ok?) && sent == old(sent) + (if spec.Ok? then [spec.value] else [])
    {
      authenticationId := username;
      password := pw;
      hostname := host;
      sc := createSaslClient(ClientRequest([name], username, "xmpp", serviceName, map[], ThisMechanism));
      history := [];
      r := Authenticate();
    }

    /** authenticate(username, host, password): the host doubles as the service name. */
    method AuthenticateWithHost(username: Option<string>, host: Option<string>, pw: Option<string>)
      returns (r: Outcome<SaslError>)
      modifies this
      ensures authenticationId == username && password == pw && hostname == host
      ensures sc == createSaslClient(ClientRequest([name], username, "xmpp", host, map[], ThisMechanism))
      ensures sc.None? ==> r == Fail(NullPointer) && sent == old(sent)
      ensures sc.Some? ==>
        var spec := InitialAuth(name, sc.value, [], codec);
        (r.Pass? <==> spec.Ok?) && sent == old(sent) + (if spec.Ok? then [spec.value] else [])
    {
      r := AuthenticateWithPassword(username, host, host, pw);
    }

    /**
     * authenticate(username, host, cbh): the caller's handler answers the
     * callbacks; no credentials are stored.
     */
    method AuthenticateWithHandler(username: Option<string>, host: Option<string>, cbh: nat)
      returns (r: Outcome<SaslError>)
      modifies this
      ensures authenticationId == old(authenticationId) && password == old(password) && hostname == old(hostname)
      ensures sc == createSaslClient(ClientRequest([name], username, "xmpp", host, map[], CallerHandler(cbh)))
      ensures sc.None? ==> r == Fail(NullPointer) && sent == old(sent)
      ensures sc.Some? ==>
        var spec := InitialAuth(name, sc.value, [], codec);
        (r.Pass? <==> spec.Ok?) && sent == old(sent) + (if spec.Ok? then [spec.value] else [])
    {
      sc := createSaslClient(ClientRequest([name], username, "xmpp", host, map[], CallerHandler(cbh)));
      history := [];
      r := Authenticate();
    }

    /**
     * challengeReceived: evaluates the decoded challenge (an empty array
     * for a null one) and sends exactly one `response`, unless the client
     * throws.
     */
    method ChallengeReceived(challenge: Option<string>) returns (r: Outcome<SaslError>)
      modifies this
      ensures sc == old(sc) && authenticationId == old(authenticationId) && password == old(password) && hostname == old(hostname)
      ensures old(sc).None? ==> r == Fail(NullPointer) && history == old(history) && sent == old(sent)
      ensures old(sc).Some? ==>
        var spec := ResponseTo(challenge, old(sc).value, old(history), codec);
        history == old(history) + [ChallengeBytes(challenge, codec)]
        && (r.Pass? <==> spec.Ok?)
        && (spec.Ok? ==> sent == old(sent) + [spec.value])
        && (spec.Err? ==> r == Fail(spec.error) && sent == old(sent))
    {
      if sc.None? {
        return Fail(NullPointer);
      }
      var bytes: Bytes;
      if challenge.Some? {
        bytes := codec.decode(challenge.value);
      } else {
        bytes := [];
      }
      var response := sc.value.evaluate(history + [bytes]);
      history := history + [bytes];
      if response.Err? {
        return Fail(response.error);
      }
      var responseStanza: Element;
      if response.value.None? {
        responseStanza := ResponseEl(None);
      } else {
        responseStanza := ResponseEl(Some(codec.encode(response.value.value)));
      }
      sent := sent + [responseStanza];
      r := Pass;
    }

    /**
     * handle: answers the callbacks in order, each as Answer says; at the
     * first one that throws, the later ones are left untouched.
     */
    method Handle(callbacks: array<Callback>) returns (r: Outcome<SaslError>)
      modifies callbacks
      ensures r.Pass? ==> forall i :: 0 <= i < callbacks.Length ==>
        Answer(old(callbacks[i]), authenticationId, password) == Ok(callbacks[i])
      ensures r.Fail? ==>
        exists k :: 0 <= k < callbacks.Length
          && Answer(old(callbacks[k]), authenticationId, password) == Err(r.error)
          && (forall i :: 0 <= i < k ==> Answer(old(callbacks[i]), authenticationId, password) == Ok(callbacks[i]))
          && (forall i :: k <= i < callbacks.Length ==> callbacks[i] == old(callbacks[i]))
    {
      for i := 0 to callbacks.Length
        invariant forall j :: 0 <= j < i ==> Answer(old(callbacks[j]), authenticationId, password) == Ok(callbacks[j])
        invariant forall j :: i <= j < callbacks.Length ==> callbacks[j] == old(callbacks[j])
      {
        var answer := Answer(callbacks[i], authenticationId, password);
        if answer.Err? {
          return Fail(answer.error);
        }
        callbacks[i] := answer.value;
      }
      r := Pass;
    }
  }
}
