/**
 * The XML layer the XMPP code is written against: dom4j elements (as immutable
 * trees), the event stream of an XML pull parser, and the two Java classes
 * whose `equals` the namespace checks go through.
 */
module Xml {
  import opened Wrappers

  /** An attribute list in document order: (local name, value). */
  type Attrs = seq<(string, string)>

  /**
   * A dom4j element: local name, namespace URI, attributes, child elements in
   * document order and the element's own text.
   */
  datatype Element = Element(name: string, ns: string, attrs: Attrs, children: seq<Element>, text: string)

  /** An element with no attributes, no children and no text. */
  function Leaf(name: string, ns: string): Element
  {
    Element(name, ns, [], [], "")
  }

  /** The first attribute called `key`, as attributeValue / getAttributeValue find it. */
  function AttrValue(attrs: Attrs, key: string): (r: Option<string>)
    ensures r.None? <==> forall i :: 0 <= i < |attrs| ==> attrs[i].0 != key
    ensures r.Some? ==> exists i :: 0 <= i < |attrs| && attrs[i] == (key, r.value)
  {
    if |attrs| == 0 then None
    else if attrs[0].0 == key then Some(attrs[0].1)
    else
      var r := AttrValue(attrs[1..], key);
      assert r.Some? ==> exists i :: 0 <= i < |attrs[1..]| && attrs[1..][i] == (key, r.value);
      r
  }

  /** Looking a key up in two lists of attributes one after the other: the first list wins. */
  lemma {:induction false} AttrValueAppend(a: Attrs, b: Attrs, key: string)
    ensures AttrValue(a + b, key) == if AttrValue(a, key).Some? then AttrValue(a, key) else AttrValue(b, key)
    decreases |a|
  {
    if |a| == 0 {
      assert a + b == b;
    } else {
      assert (a + b)[1..] == a[1..] + b;
      AttrValueAppend(a[1..], b, key);
    }
  }

  /**
   * Element.addAttribute: overwrites the first attribute called `key`, or
   * appends one; every other attribute keeps its value.
   */
  function SetAttr(attrs: Attrs, key: string, value: string): (r: Attrs)
    ensures AttrValue(r, key) == Some(value)
    ensures forall k :: k != key ==> AttrValue(r, k) == AttrValue(attrs, k)
  {
    if |attrs| == 0 then [(key, value)]
    else if attrs[0].0 == key then [(key, value)] + attrs[1..]
    else
      var rest := SetAttr(attrs[1..], key, value);
      assert ([attrs[0]] + rest)[1..] == rest;
      [attrs[0]] + rest
  }

  /** The position of the first element in `cs` called `name`, if any. */
  function FirstNamed(cs: seq<Element>, name: string): (r: Option<nat>)
    ensures r.None? <==> forall i :: 0 <= i < |cs| ==> cs[i].name != name
    ensures r.Some? ==> r.value < |cs| && cs[r.value].name == name
    ensures r.Some? ==> forall j :: 0 <= j < r.value ==> cs[j].name != name
  {
    if |cs| == 0 then None
    else if cs[0].name == name then Some(0)
    else
      match FirstNamed(cs[1..], name)
      case None => None
      case Some(k) => Some(k + 1)
  }

  /** Element.element(name): the first child called `name`, or null. */
  function Child(e: Element, name: string): (r: Option<Element>)
    ensures r.Some? ==> r.value in e.children && r.value.name == name
    ensures r.None? <==> forall c :: c in e.children ==> c.name != name
  {
    match FirstNamed(e.children, name)
    case None => None
    case Some(i) => Some(e.children[i])
  }

  /** Element.elementText(name): the text of the first child called `name`, or null. */
  function ElementText(e: Element, name: string): (r: Option<string>)
    ensures r.Some? <==> Child(e, name).Some?
    ensures r.Some? ==> r.value == Child(e, name).value.text
  {
    match Child(e, name)
    case None => None
    case Some(c) => Some(c.text)
  }

  /** Element.elements(name): every child called `name`, in document order. */
  function ChildrenNamed(cs: seq<Element>, name: string): (r: seq<Element>)
    ensures |cs| == 0 ==> r == []
    ensures |r| <= |cs|
    ensures forall c :: c in r <==> c in cs && c.name == name
  {
    if |cs| == 0 then []
    else if cs[0].name == name then [cs[0]] + ChildrenNamed(cs[1..], name)
    else ChildrenNamed(cs[1..], name)
  }

  /**
   * Appending one child extends elements(name) by that child exactly when it
   * carries the name: the result keeps document order and one entry per
   * matching child.
   */
  lemma {:induction false} ChildrenNamedAppend(cs: seq<Element>, c: Element, name: string)
    ensures ChildrenNamed(cs + [c], name) == ChildrenNamed(cs, name) + (if c.name == name then [c] else [])
    decreases |cs|
  {
    if |cs| == 0 {
      assert cs + [c] == [c];
      assert ChildrenNamed([c][1..], name) == [];
    } else {
      assert (cs + [c])[1..] == cs[1..] + [c];
      ChildrenNamedAppend(cs[1..], c, name);
    }
  }

  /** Element.elements(): the first child element whatever its name, as elementIterator().next() finds it. */
  function FirstChild(e: Element): (r: Option<Element>)
    ensures r.Some? <==> |e.children| > 0
    ensures r.Some? ==> r.value == e.children[0]
  {
    if |e.children| == 0 then None else Some(e.children[0])
  }

  /**
   * The run-time class of the argument handed to Object.equals in a
   * namespace check: a dom4j Namespace or a java.lang.String.
   */
  datatype JavaObject = NamespaceObject(uri: string) | StringObject(chars: string)

  /**
   * Object.equals as Namespace and String implement it: each is equal only to
   * an object of its own class with the same content.
   */
  predicate JavaEquals(receiver: JavaObject, argument: JavaObject)
  {
    match receiver
    case NamespaceObject(u) => argument.NamespaceObject? && argument.uri == u
    case StringObject(s) => argument.StringObject? && argument.chars == s
  }

  /** Whatever the URIs, a Namespace is never equal to a String, nor a String to a Namespace. */
  lemma NamespaceNeverEqualsString(uri: string, s: string)
    ensures !JavaEquals(NamespaceObject(uri), StringObject(s))
    ensures !JavaEquals(StringObject(s), NamespaceObject(uri))
  {
  }

  // ---------------------------------------------------------------------
  // Pull parsing (XmlPullParser as MXParser implements it)
  // ---------------------------------------------------------------------

  /**
   * One event of the pull parser. An empty-element tag `<a/>` is reported as
   * a START_TAG with `isEmpty` set, immediately followed by its END_TAG.
   */
  datatype PullEvent =
    | StartTag(name: string, ns: string, attrs: Attrs, isEmpty: bool)
    | EndTag(name: string)
    | TextEvent(text: string)

  /** Reading events split in three places does not depend on how the parts are grouped. */
  lemma EventsAssoc(a: seq<PullEvent>, b: seq<PullEvent>, c: seq<PullEvent>)
    ensures a + b + c == a + (b + c)
  {
  }

  /** Why the parser threw: the input ended, or nextText met an event it does not accept. */
  datatype PullError = EndOfInput | UnexpectedEvent

  /**
   * XmlPullParser.nextText, called while the parser is on a START_TAG, over
   * the events that follow it: the text and the END_TAG that closes it, or ""
   * when the END_TAG follows at once. Returns the text and the events left
   * after that END_TAG.
   */
  function NextTextOf(evs: seq<PullEvent>): (r: Result<(string, seq<PullEvent>), PullError>)
    ensures r.Ok? ==> IsSuffix(r.value.1, evs) && |r.value.1| < |evs|
    ensures r.Ok? && evs[0].EndTag? ==> r.value == ("", evs[1..])
    ensures r.Ok? && evs[0].TextEvent? ==> |evs| >= 2 && evs[1].EndTag? && r.value == (evs[0].text, evs[2..])
    ensures |evs| > 0 && evs[0].EndTag? ==> r == Ok(("", evs[1..]))
    ensures |evs| >= 2 && evs[0].TextEvent? && evs[1].EndTag? ==> r == Ok((evs[0].text, evs[2..]))
    ensures |evs| >= 2 && evs[0].TextEvent? && !evs[1].EndTag? ==> r == Err(UnexpectedEvent)
    ensures |evs| == 1 && evs[0].TextEvent? ==> r == Err(EndOfInput)
    ensures |evs| > 0 && evs[0].StartTag? ==> r == Err(UnexpectedEvent)
    ensures |evs| == 0 ==> r == Err(EndOfInput)
  {
    if |evs| == 0 then Err(EndOfInput)
    else match evs[0]
      case TextEvent(t) =>
        if |evs| == 1 then Err(EndOfInput)
        else if evs[1].EndTag? then Ok((t, evs[2..]))
        else Err(UnexpectedEvent)
      case EndTag(_) => Ok(("", evs[1..]))
      case StartTag(_, _, _, _) => Err(UnexpectedEvent)
  }

  /** `rest` is what is left of `evs` after some events were consumed. */
  predicate IsSuffix(rest: seq<PullEvent>, evs: seq<PullEvent>)
  {
    |rest| <= |evs| && rest == evs[|evs| - |rest|..]
  }

  /** Consuming one event, then a suffix of what follows, leaves a suffix of the whole. */
  lemma SuffixOfTail(rest: seq<PullEvent>, evs: seq<PullEvent>, k: nat)
    requires k <= |evs| && IsSuffix(rest, evs[k..])
    ensures IsSuffix(rest, evs)
  {
    assert evs[k..][|evs[k..]| - |rest|..] == evs[|evs| - |rest|..];
  }

  /**
   * A pull parser over a fixed event stream; `pos` counts the events already
   * handed out, so the current event is events[pos - 1].
   */
  class PullParser {
    const events: seq<PullEvent>
    var pos: nat

    ghost predicate Valid()
      reads this
    {
      pos <= |events|
    }

    constructor (events: seq<PullEvent>, pos: nat)
      requires pos <= |events|
      ensures Valid() && this.events == events && this.pos == pos
    {
      this.events := events;
      this.pos := pos;
    }

    /** XmlPullParser.next: the next event, or an exception at the end of the input. */
    method Next() returns (r: Result<PullEvent, PullError>)
      requires Valid()
      modifies this
      ensures Valid()
      ensures old(pos) < |events| ==> r == Ok(events[old(pos)]) && pos == old(pos) + 1
      ensures old(pos) == |events| ==> r == Err(EndOfInput) && pos == old(pos)
    {
      if pos == |events| {
        r := Err(EndOfInput);
      } else {
        r := Ok(events[pos]);
        pos := pos + 1;
      }
    }

    /** XmlPullParser.nextText, with the contract of NextTextOf. */
    method NextText() returns (r: Result<string, PullError>)
      requires Valid()
      modifies this
      ensures Valid()
      ensures var spec := NextTextOf(events[old(pos)..]);
        match r
        case Ok(t) => spec.Ok? && spec.value == (t, events[pos..])
        case Err(e) => spec == Err(e)
    {
      var ev := Next();
      if ev.Err? {
        return Err(ev.error);
      }
      match ev.value
      case TextEvent(t) =>
        var ev2 := Next();
        if ev2.Err? {
          return Err(ev2.error);
        }
        if ev2.value.EndTag? {
          r := Ok(t);
        } else {
          r := Err(UnexpectedEvent);
        }
      case EndTag(_) =>
        r := Ok("");
      case StartTag(_, _, _, _) =>
        r := Err(UnexpectedEvent);
    }
  }
}
