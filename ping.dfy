/** The XEP-0199 ping request: an IQ carrying an empty `ping` element in urn:xmpp:ping. */
module Ping {
  import opened Wrappers
  import opened Xml
  import opened IqStanzas
  import PacketReader

  const NAMESPACE := "urn:xmpp:ping"
  const ELEMENT := "ping"

  /** The element `new Ping()` builds. */
  function NewPing(id: string): (r: Element)
    ensures r.name == "iq" && AttrValue(r.attrs, "id") == Some(id)
    ensures Child(r, ELEMENT) == Some(Leaf(ELEMENT, NAMESPACE))
  {
    var r := NewIq(id).(children := [Leaf(ELEMENT, NAMESPACE)]);
    assert FirstNamed(r.children, ELEMENT) == Some(0);
    r
  }

  /** The element `new Ping(to)` builds: addressed to `to`, of type get. */
  function NewPingTo(to: string, id: string): (r: Element)
    ensures r.name == "iq" && r.children == NewPing(id).children
    ensures AttrValue(r.attrs, "to") == Some(to) && AttrValue(r.attrs, "type") == Some("get")
    ensures AttrValue(r.attrs, "id") == Some(id)
  {
    WithType(WithTo(NewPing(id), to), Get)
  }

  /** What the ping constructors build is what the packet reader classifies as a ping. */
  lemma PingIsReadAsPing(to: string, id: string)
    ensures PacketReader.ParseIq(NewPing(id)) == PacketReader.PingIq
    ensures PacketReader.ParseIq(NewPingTo(to, id)) == PacketReader.PingIq
  {
    assert Child(NewPingTo(to, id), ELEMENT) == Child(NewPing(id), ELEMENT);
  }

  class Ping {
    var element: Element

    /** Ping(): an IQ with the `ping` child. */
    constructor (id: string)
      ensures element == NewPing(id)
    {
      element := NewPing(id);
    }

    /** Ping(to): addressed to `to` and of type get. */
    constructor To(to: string, id: string)
      ensures element == NewPingTo(to, id)
    {
      element := NewPing(id);
      new;
      element := WithTo(element, to);
      element := WithType(element, Get);
    }

    /** Ping(doc): wraps a parsed element unchanged. */
    constructor Wrap(doc: Element)
      ensures element == doc
    {
      element := doc;
    }
  }
}
