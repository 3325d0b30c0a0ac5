/**
 * The IQ stanza of the packet library the payload classes extend: an `iq`
 * element whose type, id and addressee are attributes, and one payload child
 * element that the payload classes read and update in place through
 * PacketParserUtils.updateText.
 */
module IqStanzas {
  import opened Wrappers
  import opened Xml
  import PacketParserUtils

  /** IQ.Type. */
  datatype IqType = Get | Set | Result | Error

  function TypeName(t: IqType): string
  {
    match t
    case Get => "get"
    case Set => "set"
    case Result => "result"
    case Error => "error"
  }

  /** Using a payload child that `element(name)` did not find: a NullPointerException. */
  datatype PacketError = NullPointer

  /** `new IQ()`: an `iq` element of type get carrying the id the library generates. */
  function NewIq(id: string): (r: Element)
    ensures r.name == "iq" && r.children == [] && r.text == ""
    ensures AttrValue(r.attrs, "type") == Some("get") && AttrValue(r.attrs, "id") == Some(id)
  {
    Element("iq", "", [("type", "get"), ("id", id)], [], "")
  }

  /** setType: the `type` attribute is replaced, nothing else changes. */
  function WithType(el: Element, t: IqType): (r: Element)
    ensures r == el.(attrs := r.attrs)
    ensures AttrValue(r.attrs, "type") == Some(TypeName(t))
    ensures forall k :: k != "type" ==> AttrValue(r.attrs, k) == AttrValue(el.attrs, k)
  {
    el.(attrs := SetAttr(el.attrs, "type", TypeName(t)))
  }

  /** setTo: the `to` attribute is replaced, nothing else changes. */
  function WithTo(el: Element, to: string): (r: Element)
    ensures r == el.(attrs := r.attrs)
    ensures AttrValue(r.attrs, "to") == Some(to)
    ensures forall k :: k != "to" ==> AttrValue(r.attrs, k) == AttrValue(el.attrs, k)
  {
    el.(attrs := SetAttr(el.attrs, "to", to))
  }

  /** The payload child is at `at`, or there is none. */
  predicate PayloadAt(el: Element, at: Option<nat>)
  {
    at.Some? ==> at.value < |el.children|
  }

  /** elementText of the payload child: fails when there is no payload child. */
  function PayloadText(el: Element, at: Option<nat>, name: string): (r: Result<Option<string>, PacketError>)
    requires PayloadAt(el, at)
    ensures r.Err? <==> at.None?
    ensures r.Ok? ==> r.value == ElementText(el.children[at.value], name)
  {
    if at.None? then Err(NullPointer) else Ok(ElementText(el.children[at.value], name))
  }

  /**
   * updateText on the payload child, in place: afterwards the child `name`
   * reads back `text`, every other field of the payload reads as before and
   * no other child of the stanza changes.
   */
  function UpdatePayloadText(el: Element, at: Option<nat>, name: string, text: string): (r: Result<Element, PacketError>)
    requires PayloadAt(el, at)
    ensures r.Err? <==> at.None?
    ensures r.Ok? ==> PayloadAt(r.value, at) && r.value == el.(children := r.value.children)
    ensures r.Ok? ==> |r.value.children| == |el.children| && r.value.children[at.value].name == el.children[at.value].name
    ensures r.Ok? ==> forall j :: 0 <= j < |el.children| && j != at.value ==> r.value.children[j] == el.children[j]
    ensures r.Ok? ==> PayloadText(r.value, at, name) == Ok(Some(text))
    ensures r.Ok? ==> forall n :: n != name ==> PayloadText(r.value, at, n) == PayloadText(el, at, n)
  {
    if at.None? then Err(NullPointer)
    else
      var i := at.value;
      Ok(el.(children := el.children[i := PacketParserUtils.UpdateText(el.children[i], name, text)]))
  }

  /** Setting a field twice to the same text is the same as setting it once. */
  lemma UpdatePayloadIdempotent(el: Element, at: Option<nat>, name: string, text: string)
    requires PayloadAt(el, at) && at.Some?
    ensures var once := UpdatePayloadText(el, at, name, text).value;
      UpdatePayloadText(once, at, name, text) == Ok(once)
  {
    var i := at.value;
    var once := UpdatePayloadText(el, at, name, text).value;
    PacketParserUtils.UpdateTextIdempotent(el.children[i], name, text);
    assert once.children[i := PacketParserUtils.UpdateText(once.children[i], name, text)] == once.children;
  }
}
