/** The resource-binding IQ of section 7 of RFC 6120: a `bind` payload with `resource` and `jid` children. */
module Bind {
  import opened Wrappers
  import opened Xml
  import opened IqStanzas
  import PacketReader

  const NAMESPACE := "urn:ietf:params:xml:ns:xmpp-bind"
  const ELEMENT := "bind"

  /** The element `new Bind()` builds: of type set, with an empty `bind` child. */
  function NewBind(id: string): (r: Element)
    ensures r.name == "iq" && AttrValue(r.attrs, "type") == Some("set") && AttrValue(r.attrs, "id") == Some(id)
    ensures r.children == [Leaf(ELEMENT, NAMESPACE)]
  {
    WithType(NewIq(id), Set).(children := [Leaf(ELEMENT, NAMESPACE)])
  }

  /** What `new Bind()` builds is what the packet reader classifies as a bind. */
  lemma BindIsReadAsBind(id: string)
    ensures PacketReader.ParseIq(NewBind(id)) == PacketReader.BindIq
  {
    assert FirstNamed(NewBind(id).children, ELEMENT) == Some(0);
    assert FirstNamed(NewBind(id).children, "ping") == None;
  }

  class Bind {
    var element: Element
    /** The position of bindEl among the stanza's children (null when the stanza has none). */
    const bindEl: Option<nat>

    ghost predicate Valid()
      reads this
    {
      PayloadAt(element, bindEl) && (bindEl.Some? ==> element.children[bindEl.value].name == ELEMENT)
    }

    /** Bind(el): the payload is the element's first `bind` child. */
    constructor Wrap(el: Element)
      ensures Valid() && element == el && bindEl == FirstNamed(el.children, ELEMENT)
    {
      element := el;
      bindEl := FirstNamed(el.children, ELEMENT);
    }

    /** Bind(). */
    constructor (id: string)
      ensures Valid() && element == NewBind(id) && bindEl == Some(0)
    {
      element := NewBind(id);
      bindEl := Some(0);
    }

    /** getResource: the text of the payload's `resource` child, null without one; no payload throws. */
    function GetResource(): (r: Result<Option<string>, PacketError>)
      reads this
      requires Valid()
      ensures r.Err? <==> bindEl.None?
      ensures r.Ok? ==> r.value == ElementText(element.children[bindEl.value], "resource")
    {
      PayloadText(element, bindEl, "resource")
    }

    /** getJid: the text of the payload's `jid` child, null without one; no payload throws. */
    function GetJid(): (r: Result<Option<string>, PacketError>)
      reads this
      requires Valid()
      ensures r.Err? <==> bindEl.None?
      ensures r.Ok? ==> r.value == ElementText(element.children[bindEl.value], "jid")
    {
      PayloadText(element, bindEl, "jid")
    }

    /** setResource: reads back, and leaves the jid as it was. */
    method SetResource(resource: string) returns (outcome: Outcome<PacketError>)
      requires Valid()
      modifies this
      ensures Valid()
      ensures outcome.Fail? <==> bindEl.None?
      ensures outcome.Fail? ==> element == old(element)
      ensures outcome.Pass? ==> element == UpdatePayloadText(old(element), bindEl, "resource", resource).value
      ensures outcome.Pass? ==> GetResource() == Ok(Some(resource)) && GetJid() == old(GetJid())
    {
      var r := UpdatePayloadText(element, bindEl, "resource", resource);
      if r.Err? {
        return Fail(r.error);
      }
      element := r.value;
      outcome := Pass;
    }

    /** setJid: reads back, and leaves the resource as it was. */
    method SetJid(jid: string) returns (outcome: Outcome<PacketError>)
      requires Valid()
      modifies this
      ensures Valid()
      ensures outcome.Fail? <==> bindEl.None?
      ensures outcome.Fail? ==> element == old(element)
      ensures outcome.Pass? ==> element == UpdatePayloadText(old(element), bindEl, "jid", jid).value
      ensures outcome.Pass? ==> GetJid() == Ok(Some(jid)) && GetResource() == old(GetResource())
    {
      var r := UpdatePayloadText(element, bindEl, "jid", jid);
      if r.Err? {
        return Fail(r.error);
      }
      element := r.value;
      outcome := Pass;
    }
  }
}
