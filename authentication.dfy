/**
 * The non-SASL authentication IQ of XEP-0078: a `query` in jabber:iq:auth
 * with `username`, `digest`, `password` and `resource` fields.
 */
module Authentication {
  import opened Wrappers
  import opened Xml
  import opened IqStanzas
  import PacketReader

  const NAMESPACE := "jabber:iq:auth"

  /** The query `new Authentication()` builds: its four fields, empty, in the query's namespace. */
  function EmptyQuery(): Element
  {
    Element("query", NAMESPACE, [],
      [Leaf("username", NAMESPACE), Leaf("digest", NAMESPACE), Leaf("password", NAMESPACE), Leaf("resource", NAMESPACE)], "")
  }

  /** Each of the four fields of a new query reads as the empty text. */
  lemma EmptyQueryFields()
    ensures ElementText(EmptyQuery(), "username") == Some("") && ElementText(EmptyQuery(), "digest") == Some("")
    ensures ElementText(EmptyQuery(), "password") == Some("") && ElementText(EmptyQuery(), "resource") == Some("")
  {
    var q := EmptyQuery();
    assert forall c :: c in q.children ==> c.text == "";
    EmptyTextOf(q, "username", 0);
    EmptyTextOf(q, "digest", 1);
    EmptyTextOf(q, "password", 2);
    EmptyTextOf(q, "resource", 3);
  }

  /** In an element whose children all have empty text, the text of any child present is empty. */
  lemma EmptyTextOf(e: Element, name: string, i: nat)
    requires i < |e.children| && e.children[i].name == name
    requires forall c :: c in e.children ==> c.text == ""
    ensures ElementText(e, name) == Some("")
  {
    assert e.children[i] in e.children;
  }

  /** The element `new Authentication()` builds: of type set, with the query as its only child. */
  function NewAuthentication(id: string): (r: Element)
    ensures r.name == "iq" && AttrValue(r.attrs, "type") == Some("set") && AttrValue(r.attrs, "id") == Some(id)
    ensures r.children == [EmptyQuery()]
  {
    WithType(NewIq(id), Set).(children := [EmptyQuery()])
  }

  /** What `new Authentication()` builds is what the packet reader classifies as an authentication IQ. */
  lemma AuthenticationIsReadAsAuthentication(id: string)
    ensures PacketReader.ParseIq(NewAuthentication(id)) == PacketReader.AuthenticationIq
  {
    var cs := NewAuthentication(id).children;
    assert FirstNamed(cs, "query") == Some(0);
    assert FirstNamed(cs, "ping") == None;
    assert FirstNamed(cs, "bind") == None;
  }

  class Authentication {
    var element: Element
    /** The position of queryEl among the stanza's children (null when the stanza has none). */
    const queryEl: Option<nat>

    ghost predicate Valid()
      reads this
    {
      PayloadAt(element, queryEl) && (queryEl.Some? ==> element.children[queryEl.value].name == "query")
    }

    /** Authentication(). */
    constructor (id: string)
      ensures Valid() && element == NewAuthentication(id) && queryEl == Some(0)
    {
      element := NewAuthentication(id);
      queryEl := Some(0);
    }

    /** Authentication(el): reads and writes the element's own first `query` child. */
    constructor Wrap(el: Element)
      ensures Valid() && element == el && queryEl == FirstNamed(el.children, "query")
    {
      element := el;
      queryEl := FirstNamed(el.children, "query");
    }

    /** getUsername: the text of the query's `username` child, null without one; no query throws. */
    function GetUsername(): (r: Result<Option<string>, PacketError>)
      reads this
      requires Valid()
      ensures r.Err? <==> queryEl.None?
      ensures r.Ok? ==> r.value == ElementText(element.children[queryEl.value], "username")
    {
      PayloadText(element, queryEl, "username")
    }

    /** getPassword: the text of the query's `password` child, null without one; no query throws. */
    function GetPassword(): (r: Result<Option<string>, PacketError>)
      reads this
      requires Valid()
      ensures r.Err? <==> queryEl.None?
      ensures r.Ok? ==> r.value == ElementText(element.children[queryEl.value], "password")
    {
      PayloadText(element, queryEl, "password")
    }

    /** getDigest: the text of the query's `digest` child, null without one; no query throws. */
    function GetDigest(): (r: Result<Option<string>, PacketError>)
      reads this
      requires Valid()
      ensures r.Err? <==> queryEl.None?
      ensures r.Ok? ==> r.value == ElementText(element.children[queryEl.value], "digest")
    {
      PayloadText(element, queryEl, "digest")
    }

    /** getResource: the text of the query's `resource` child, null without one; no query throws. */
    function GetResource(): (r: Result<Option<string>, PacketError>)
      reads this
      requires Valid()
      ensures r.Err? <==> queryEl.None?
      ensures r.Ok? ==> r.value == ElementText(element.children[queryEl.value], "resource")
    {
      PayloadText(element, queryEl, "resource")
    }

    /** The common body of the four setters: updateText on one field of the query. */
    method SetField(name: string, value: string) returns (outcome: Outcome<PacketError>)
      requires Valid()
      modifies this
      ensures Valid()
      ensures outcome.Fail? <==> queryEl.None?
      ensures outcome.Fail? ==> element == old(element)
      ensures outcome.Pass? ==> element == UpdatePayloadText(old(element), queryEl, name, value).value
    {
      var r := UpdatePayloadText(element, queryEl, name, value);
      if r.Err? {
        return Fail(r.error);
      }
      element := r.value;
      outcome := Pass;
    }

    /** setUsername: reads back; the other three fields keep their values. */
    method SetUsername(username: string) returns (outcome: Outcome<PacketError>)
      requires Valid()
      modifies this
      ensures Valid()
      ensures outcome.Fail? <==> queryEl.None?
      ensures outcome.Fail? ==> element == old(element)
      ensures outcome.Pass? ==> element == UpdatePayloadText(old(element), queryEl, "username", username).value
      ensures outcome.Pass? ==> GetUsername() == Ok(Some(username))
      ensures outcome.Pass? ==> GetPassword() == old(GetPassword()) && GetDigest() == old(GetDigest()) && GetResource() == old(GetResource())
    {
      outcome := SetField("username", username);
    }

    /** setPassword: reads back; the other three fields keep their values. */
    method SetPassword(password: string) returns (outcome: Outcome<PacketError>)
      requires Valid()
      modifies this
      ensures Valid()
      ensures outcome.Fail? <==> queryEl.None?
      ensures outcome.Fail? ==> element == old(element)
      ensures outcome.Pass? ==> element == UpdatePayloadText(old(element), queryEl, "password", password).value
      ensures outcome.Pass? ==> GetPassword() == Ok(Some(password))
      ensures outcome.Pass? ==> GetUsername() == old(GetUsername()) && GetDigest() == old(GetDigest()) && GetResource() == old(GetResource())
    {
      outcome := SetField("password", password);
    }

    /** setDigest(digest): reads back; the other three fields keep their values. */
    method SetDigest(digest: string) returns (outcome: Outcome<PacketError>)
      requires Valid()
      modifies this
      ensures Valid()
      ensures outcome.Fail? <==> queryEl.None?
      ensures outcome.Fail? ==> element == old(element)
      ensures outcome.Pass? ==> element == UpdatePayloadText(old(element), queryEl, "digest", digest).value
      ensures outcome.Pass? ==> GetDigest() == Ok(Some(digest))
      ensures outcome.Pass? ==> GetUsername() == old(GetUsername()) && GetPassword() == old(GetPassword()) && GetResource() == old(GetResource())
    {
      outcome := SetField("digest", digest);
    }

    /** setDigest(connectionID, password): the digest of the two, with the hash function given. */
    method SetDigestFor(connectionId: string, password: string, hash: string -> string) returns (outcome: Outcome<PacketError>)
      requires Valid()
      modifies this
      ensures Valid()
      ensures outcome.Fail? <==> queryEl.None?
      ensures outcome.Fail? ==> element == old(element)
      ensures outcome.Pass? ==> element == UpdatePayloadText(old(element), queryEl, "digest", hash(connectionId + password)).value
      ensures outcome.Pass? ==> GetDigest() == Ok(Some(hash(connectionId + password)))
    {
      outcome := SetDigest(hash(connectionId + password));
    }

    /** setResource: reads back; the other three fields keep their values. */
    method SetResource(resource: string) returns (outcome: Outcome<PacketError>)
      requires Valid()
      modifies this
      ensures Valid()
      ensures outcome.Fail? <==> queryEl.None?
      ensures outcome.Fail? ==> element == old(element)
      ensures outcome.Pass? ==> element == UpdatePayloadText(old(element), queryEl, "resource", resource).value
      ensures outcome.Pass? ==> GetResource() == Ok(Some(resource))
      ensures outcome.Pass? ==> GetUsername() == old(GetUsername()) && GetPassword() == old(GetPassword()) && GetDigest() == old(GetDigest())
    {
      outcome := SetField("resource", resource);
    }
  }
}
