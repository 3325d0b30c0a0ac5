/**
 * The in-band registration IQ of XEP-0077: a `query` in jabber:iq:register
 * whose children are the account attributes (name to text) and optional
 * `instructions`.
 */
module Registration {
  import opened Wrappers
  import opened Xml
  import opened IqStanzas
  import PacketParserUtils
  import PacketReader

  const NAMESPACE := "jabber:iq:register"
  const INSTRUCTIONS := "instructions"

  /** The element `new Registration()` builds: an IQ with an empty `query` child. */
  function NewRegistration(id: string): (r: Element)
    ensures r.name == "iq" && AttrValue(r.attrs, "type") == Some("get") && AttrValue(r.attrs, "id") == Some(id)
    ensures r.children == [Leaf("query", NAMESPACE)]
  {
    NewIq(id).(children := [Leaf("query", NAMESPACE)])
  }

  /** What `new Registration()` builds is what the packet reader classifies as a registration. */
  lemma RegistrationIsReadAsRegistration(id: string)
    ensures PacketReader.ParseIq(NewRegistration(id)) == PacketReader.RegistrationIq
  {
    var cs := NewRegistration(id).children;
    assert FirstNamed(cs, "query") == Some(0);
    assert FirstNamed(cs, "ping") == None;
    assert FirstNamed(cs, "bind") == None;
  }

  function MapOf(a: Option<map<string, string>>): map<string, string>
  {
    if a.Some? then a.value else map[]
  }

  /**
   * getAttributes over the query's children: each child other than
   * `instructions` maps its name to its text, a later child of the same name
   * overriding an earlier one; null when there is no such child.
   */
  function AttributesOf(cs: seq<Element>): (r: Option<map<string, string>>)
    ensures r.None? <==> forall i :: 0 <= i < |cs| ==> cs[i].name == INSTRUCTIONS
    ensures r.Some? ==> INSTRUCTIONS !in r.value
    decreases |cs|
  {
    if |cs| == 0 then None
    else
      var init := cs[..|cs| - 1];
      var c := cs[|cs| - 1];
      var prev := AttributesOf(init);
      assert forall i :: 0 <= i < |init| ==> init[i] == cs[i];
      if c.name == INSTRUCTIONS then prev
      else Some(MapOf(prev)[c.name := c.text])
  }

  /** getAttributes has a key for exactly the names of the children other than `instructions`. */
  lemma {:induction false} AttributesOfKeys(cs: seq<Element>)
    ensures forall k :: k in MapOf(AttributesOf(cs)) <==> k != INSTRUCTIONS && exists i :: 0 <= i < |cs| && cs[i].name == k
    decreases |cs|
  {
    if |cs| > 0 {
      var n := |cs| - 1;
      var init := cs[..n];
      AttributesOfKeys(init);
      forall k
        ensures k in MapOf(AttributesOf(cs)) <==> k != INSTRUCTIONS && exists i :: 0 <= i < |cs| && cs[i].name == k
      {
        if k in MapOf(AttributesOf(init)) {
          var i :| 0 <= i < |init| && init[i].name == k;
          assert cs[i].name == k;
        }
        if k != INSTRUCTIONS && cs[n].name != k && (exists i :: 0 <= i < |cs| && cs[i].name == k) {
          var i :| 0 <= i < |cs| && cs[i].name == k;
          assert init[i].name == k;
        }
      }
    }
  }

  /** getAttributes maps a name to the text of the last child of that name. */
  lemma {:induction false} AttributesOfLastWins(cs: seq<Element>, i: nat)
    requires i < |cs| && cs[i].name != INSTRUCTIONS
    requires forall j :: i < j < |cs| ==> cs[j].name != cs[i].name
    ensures cs[i].name in MapOf(AttributesOf(cs)) && MapOf(AttributesOf(cs))[cs[i].name] == cs[i].text
    decreases |cs|
  {
    var n := |cs| - 1;
    if i < n {
      var init := cs[..n];
      AttributesOfLastWins(init, i);
    }
  }

  /** The attributes after `m` is written over `a`: null only when both are empty. */
  function Overlay(a: Option<map<string, string>>, m: map<string, string>): (r: Option<map<string, string>>)
    ensures r.None? <==> a.None? && m == map[]
    ensures r.Some? ==> forall k :: k in m ==> k in r.value && r.value[k] == m[k]
    ensures r.Some? ==> forall k :: k !in m ==> (k in r.value <==> k in MapOf(a)) && (k in r.value ==> r.value[k] == MapOf(a)[k])
  {
    if a.None? && m == map[] then None else Some(MapOf(a) + m)
  }

  /** No two children share a name. */
  predicate UniqueNames(cs: seq<Element>)
  {
    forall i, j :: 0 <= i < j < |cs| ==> cs[i].name != cs[j].name
  }

  /** Replacing the text of an `instructions` child never changes the attributes. */
  lemma {:induction false} AttributesIgnoreInstructions(cs: seq<Element>, i: nat, t: string)
    requires i < |cs| && cs[i].name == INSTRUCTIONS
    ensures AttributesOf(cs[i := cs[i].(text := t)]) == AttributesOf(cs)
    decreases |cs|
  {
    var ds := cs[i := cs[i].(text := t)];
    var n := |cs| - 1;
    if i < n {
      assert ds[..n] == cs[..n][i := cs[i].(text := t)];
      AttributesIgnoreInstructions(cs[..n], i, t);
    } else {
      assert ds[..n] == cs[..n];
    }
  }

  /** getAttributes unfolded at the last child. */
  lemma AttributesOfLast(cs: seq<Element>)
    requires |cs| > 0
    ensures cs[|cs| - 1].name == INSTRUCTIONS ==> AttributesOf(cs) == AttributesOf(cs[..|cs| - 1])
    ensures cs[|cs| - 1].name != INSTRUCTIONS ==>
      AttributesOf(cs) == Some(MapOf(AttributesOf(cs[..|cs| - 1]))[cs[|cs| - 1].name := cs[|cs| - 1].text])
  {
  }

  /** Overlaying a non-empty map always gives attributes. */
  lemma OverlayNonEmpty(a: Option<map<string, string>>, k: string, v: string)
    ensures Overlay(a, map[k := v]) == Some(MapOf(a) + map[k := v])
  {
    assert k in map[k := v];
  }

  /** Replacing the text of a child whose name is unique updates exactly that attribute. */
  lemma {:induction false} AttributesOfReplace(cs: seq<Element>, i: nat, t: string)
    requires i < |cs| && UniqueNames(cs) && cs[i].name != INSTRUCTIONS
    ensures AttributesOf(cs[i := cs[i].(text := t)]) == Overlay(AttributesOf(cs), map[cs[i].name := t])
    decreases |cs|
  {
    var ds := cs[i := cs[i].(text := t)];
    var n := |cs| - 1;
    var name := cs[i].name;
    var prev := AttributesOf(cs[..n]);
    OverlayNonEmpty(AttributesOf(cs), name, t);
    AttributesOfLast(cs);
    AttributesOfLast(ds);
    if i < n {
      assert ds[..n] == cs[..n][i := cs[i].(text := t)];
      UniqueNamesPrefix(cs, n);
      AttributesOfReplace(cs[..n], i, t);
      OverlayNonEmpty(prev, name, t);
      var c := cs[n];
      assert ds[n] == c;
      if c.name != INSTRUCTIONS {
        assert c.name != name;
        OverlayCommutes(MapOf(prev), name, t, c.name, c.text);
      }
    } else {
      assert ds[..n] == cs[..n];
      assert MapOf(prev)[name := t] == MapOf(prev)[name := cs[i].text] + map[name := t];
    }
  }

  /** A prefix of children with unique names has unique names. */
  lemma UniqueNamesPrefix(cs: seq<Element>, n: nat)
    requires n <= |cs| && UniqueNames(cs)
    ensures UniqueNames(cs[..n])
  {
    forall j, k | 0 <= j < k < n ensures cs[..n][j].name != cs[..n][k].name {
      assert cs[..n][j] == cs[j] && cs[..n][k] == cs[k];
    }
  }

  /** Writing two different keys in either order gives the same map. */
  lemma OverlayCommutes(m: map<string, string>, k1: string, v1: string, k2: string, v2: string)
    requires k1 != k2
    ensures (m + map[k1 := v1])[k2 := v2] == m[k2 := v2] + map[k1 := v1]
  {
  }

  /**
   * updateText on the query, seen through getAttributes: the names stay
   * unique, setting `instructions` leaves the attributes alone, and setting
   * any other name updates or adds exactly that attribute.
   */
  lemma AttributesAfterUpdate(q: Element, name: string, text: string)
    requires UniqueNames(q.children) || name == INSTRUCTIONS
    ensures UniqueNames(q.children) ==> UniqueNames(PacketParserUtils.UpdateText(q, name, text).children)
    ensures AttributesOf(PacketParserUtils.UpdateText(q, name, text).children) ==
            if name == INSTRUCTIONS then AttributesOf(q.children) else Overlay(AttributesOf(q.children), map[name := text])
  {
    var cs := q.children;
    var r := PacketParserUtils.UpdateText(q, name, text);
    match FirstNamed(cs, name)
    case Some(i) =>
      assert r.children == cs[i := cs[i].(text := text)];
      if UniqueNames(cs) {
        UniqueAfterRetext(cs, i, text);
      }
      if name == INSTRUCTIONS {
        AttributesIgnoreInstructions(cs, i, text);
      } else {
        AttributesOfReplace(cs, i, text);
      }
    case None =>
      var c := Element(name, q.ns, [], [], text);
      assert r.children == cs + [c];
      if UniqueNames(cs) {
        UniqueAfterAppend(cs, c);
      }
      AttributesAfterAppend(cs, c);
  }

  /** Changing one child's text keeps the names unique. */
  lemma UniqueAfterRetext(cs: seq<Element>, i: nat, t: string)
    requires i < |cs| && UniqueNames(cs)
    ensures UniqueNames(cs[i := cs[i].(text := t)])
  {
    var ds := cs[i := cs[i].(text := t)];
    forall j, k | 0 <= j < k < |ds| ensures ds[j].name != ds[k].name {
      assert ds[j].name == cs[j].name && ds[k].name == cs[k].name;
    }
  }

  /** Appending a child of a new name keeps the names unique. */
  lemma UniqueAfterAppend(cs: seq<Element>, c: Element)
    requires UniqueNames(cs) && forall j :: 0 <= j < |cs| ==> cs[j].name != c.name
    ensures UniqueNames(cs + [c])
  {
    var ds := cs + [c];
    forall j, k | 0 <= j < k < |ds| ensures ds[j].name != ds[k].name {
      assert ds[j] == cs[j];
      if k < |cs| {
        assert ds[k] == cs[k];
      }
    }
  }

  /** Appending a child sets its attribute, unless it is `instructions`. */
  lemma AttributesAfterAppend(cs: seq<Element>, c: Element)
    ensures AttributesOf(cs + [c]) == if c.name == INSTRUCTIONS then AttributesOf(cs) else Overlay(AttributesOf(cs), map[c.name := c.text])
  {
    assert (cs + [c])[..|cs|] == cs;
    AttributesOfLast(cs + [c]);
    if c.name != INSTRUCTIONS {
      OverlayNonEmpty(AttributesOf(cs), c.name, c.text);
      assert MapOf(AttributesOf(cs))[c.name := c.text] == MapOf(AttributesOf(cs)) + map[c.name := c.text];
    }
  }

  /** Writing attributes one at a time is writing them all at once. */
  lemma OverlayStep(a: Option<map<string, string>>, m: map<string, string>, k: string, v: string)
    ensures Overlay(Overlay(a, m), map[k := v]) == Overlay(a, m[k := v])
  {
    if Overlay(a, m).Some? {
      assert MapOf(Overlay(a, m)) + map[k := v] == MapOf(a) + m[k := v];
    }
  }

  /**
   * What setAttributes has achieved on query `q0` once the entries `w`
   * are written: they read back, and other names are untouched ...
   */
  ghost predicate WrittenTexts(q0: Element, q: Element, w: map<string, string>)
  {
    && q == q0.(children := q.children)
    && (forall k :: k in w ==> ElementText(q, k) == Some(w[k]))
    && (forall n :: n !in w ==> Child(q, n) == Child(q0, n))
  }

  lemma WrittenTextsStep(q0: Element, q: Element, w: map<string, string>, key: string, value: string)
    requires WrittenTexts(q0, q, w)
    ensures WrittenTexts(q0, PacketParserUtils.UpdateText(q, key, value), w[key := value])
  {
    var r := PacketParserUtils.UpdateText(q, key, value);
    var w' := w[key := value];
    forall k | k in w' ensures ElementText(r, k) == Some(w'[k]) {
      if k != key {
        assert Child(r, k) == Child(q, k);
      }
    }
    forall n | n !in w' ensures Child(r, n) == Child(q0, n) {
      assert Child(r, n) == Child(q, n);
    }
  }

  /** ... and the attributes are the old ones overwritten by the entries `w` written so far. */
  ghost predicate WrittenAttributes(q0: Element, q: Element, w: map<string, string>)
  {
    UniqueNames(q0.children) ==>
      UniqueNames(q.children) && AttributesOf(q.children) == Overlay(AttributesOf(q0.children), w - {INSTRUCTIONS})
  }

  lemma WrittenAttributesStep(q0: Element, q: Element, w: map<string, string>, key: string, value: string)
    requires WrittenAttributes(q0, q, w)
    ensures WrittenAttributes(q0, PacketParserUtils.UpdateText(q, key, value), w[key := value])
  {
    if UniqueNames(q0.children) {
      var a0 := AttributesOf(q0.children);
      AttributesAfterUpdate(q, key, value);
      if key != INSTRUCTIONS {
        OverlayStep(a0, w - {INSTRUCTIONS}, key, value);
        RemoveThenUpdate(w, key, value);
      } else {
        UpdateThenRemove(w, value);
      }
    }
  }

  lemma RemoveThenUpdate(w: map<string, string>, key: string, value: string)
    requires key != INSTRUCTIONS
    ensures (w - {INSTRUCTIONS})[key := value] == w[key := value] - {INSTRUCTIONS}
  {
  }

  lemma UpdateThenRemove(w: map<string, string>, value: string)
    ensures w - {INSTRUCTIONS} == w[INSTRUCTIONS := value] - {INSTRUCTIONS}
  {
  }

  /** The loop of setAttributes: updateText for every entry, in the map's iteration order. */
  /** The query after the entries of `m` named by `keys` are written in that order. */
  function WriteAll(q: Element, keys: seq<string>, m: map<string, string>): (r: Element)
    requires forall i :: 0 <= i < |keys| ==> keys[i] in m
    ensures r.name == q.name
    decreases |keys|
  {
    if |keys| == 0 then q
    else
      var k := keys[|keys| - 1];
      PacketParserUtils.UpdateText(WriteAll(q, keys[..|keys| - 1], m), k, m[k])
  }

  /** The entries of `m` named in `keys`. */
  ghost function Entries(keys: seq<string>, m: map<string, string>): map<string, string>
  {
    map k | k in keys && k in m :: m[k]
  }

  lemma EntriesStep(keys: seq<string>, m: map<string, string>)
    requires 0 < |keys| && keys[|keys| - 1] in m
    ensures Entries(keys, m) == Entries(keys[..|keys| - 1], m)[keys[|keys| - 1] := m[keys[|keys| - 1]]]
  {
    assert keys == keys[..|keys| - 1] + [keys[|keys| - 1]];
  }

  /** Writing no entries leaves the query as it is. */
  lemma NothingWritten(q: Element)
    ensures WrittenTexts(q, q, map[]) && WrittenAttributes(q, q, map[])
  {
    var none: map<string, string> := map[];
    assert none - {INSTRUCTIONS} == none;
    assert MapOf(AttributesOf(q.children)) + map[] == MapOf(AttributesOf(q.children));
  }

  /** Whatever the order, writing the entries named in `keys` leaves them readable and the other children alone ... */
  lemma {:induction false} WriteAllTexts(q0: Element, keys: seq<string>, m: map<string, string>)
    requires forall i :: 0 <= i < |keys| ==> keys[i] in m
    ensures WrittenTexts(q0, WriteAll(q0, keys, m), Entries(keys, m))
    decreases |keys|
  {
    if |keys| == 0 {
      assert Entries(keys, m) == map[];
    } else {
      var n := |keys| - 1;
      var init := keys[..n];
      var k := keys[n];
      WriteAllTexts(q0, init, m);
      WrittenTextsStep(q0, WriteAll(q0, init, m), Entries(init, m), k, m[k]);
      EntriesStep(keys, m);
    }
  }

  /** ... and overwrite exactly those attributes. */
  lemma {:induction false} WriteAllAttributes(q0: Element, keys: seq<string>, m: map<string, string>)
    requires forall i :: 0 <= i < |keys| ==> keys[i] in m
    ensures WrittenAttributes(q0, WriteAll(q0, keys, m), Entries(keys, m))
    decreases |keys|
  {
    if |keys| == 0 {
      assert Entries(keys, m) - {INSTRUCTIONS} == map[];
      assert MapOf(AttributesOf(q0.children)) + map[] == MapOf(AttributesOf(q0.children));
    } else {
      var n := |keys| - 1;
      var init := keys[..n];
      var k := keys[n];
      WriteAllAttributes(q0, init, m);
      WrittenAttributesStep(q0, WriteAll(q0, init, m), Entries(init, m), k, m[k]);
      EntriesStep(keys, m);
    }
  }

  /** setAttributes' loop, seen through what it writes: the whole map, in whatever order the map iterates. */
  method WriteAttributes(q0: Element, attributes: map<string, string>) returns (q: Element)
    ensures q.name == q0.name
    ensures WrittenTexts(q0, q, attributes)
    ensures WrittenAttributes(q0, q, attributes)
  {
    ghost var order;
    q, order := WriteEach(q0, attributes);
    WrittenInAnyOrder(q0, order, attributes);
  }

  /**
   * The loop of setAttributes: each entry is written with updateText, in
   * the map's own iteration order, which the model leaves open; `order` is
   * the order taken, each key once.
   */
  method WriteEach(q0: Element, attributes: map<string, string>) returns (q: Element, ghost order: seq<string>)
    ensures forall i :: 0 <= i < |order| ==> order[i] in attributes
    ensures forall k :: k in attributes ==> k in order
    ensures q == WriteAll(q0, order, attributes)
  {
    q := q0;
    var remaining := attributes.Keys;
    order := [];
    while remaining != {}
      invariant remaining <= attributes.Keys
      invariant forall i :: 0 <= i < |order| ==> order[i] in attributes && order[i] !in remaining
      invariant forall k :: k in attributes ==> k in remaining || k in order
      invariant q == WriteAll(q0, order, attributes)
      decreases |remaining|
    {
      var key :| key in remaining;
      q := PacketParserUtils.UpdateText(q, key, attributes[key]);
      WriteAllStep(q0, order, key, attributes);
      order := order + [key];
      remaining := remaining - {key};
    }
  }

  /** Writing one more key is one more updateText. */
  lemma WriteAllStep(q0: Element, keys: seq<string>, key: string, m: map<string, string>)
    requires forall i :: 0 <= i < |keys| ==> keys[i] in m
    requires key in m
    ensures WriteAll(q0, keys + [key], m) == PacketParserUtils.UpdateText(WriteAll(q0, keys, m), key, m[key])
  {
    assert (keys + [key])[..|keys|] == keys;
  }

  /** Writing every key of the map, in any order that lists each one, writes the whole map. */
  lemma WrittenInAnyOrder(q0: Element, order: seq<string>, attributes: map<string, string>)
    requires forall i :: 0 <= i < |order| ==> order[i] in attributes
    requires forall k :: k in attributes ==> k in order
    ensures WrittenTexts(q0, WriteAll(q0, order, attributes), attributes)
    ensures WrittenAttributes(q0, WriteAll(q0, order, attributes), attributes)
  {
    WriteAllTexts(q0, order, attributes);
    WriteAllAttributes(q0, order, attributes);
    assert Entries(order, attributes) == attributes;
  }

  class Registration {
    var element: Element
    /** The position of queryEl among the stanza's children (null when the stanza has none). */
    const queryEl: Option<nat>

    ghost predicate Valid()
      reads this
    {
      PayloadAt(element, queryEl) && (queryEl.Some? ==> element.children[queryEl.value].name == "query")
    }

    function Query(): Element
      reads this
      requires Valid() && queryEl.Some?
    {
      element.children[queryEl.value]
    }

    /** Registration(). */
    constructor (id: string)
      ensures Valid() && element == NewRegistration(id) && queryEl == Some(0)
    {
      element := NewRegistration(id);
      queryEl := Some(0);
    }

    /** Registration(el): reads and writes the element's own first `query` child. */
    constructor Wrap(el: Element)
      ensures Valid() && element == el && queryEl == FirstNamed(el.children, "query")
    {
      element := el;
      queryEl := FirstNamed(el.children, "query");
    }

    /** getInstructions: the text of the payload's `instructions` child, null without one; no payload throws. */
    function GetInstructions(): (r: Result<Option<string>, PacketError>)
      reads this
      requires Valid()
      ensures r.Err? <==> queryEl.None?
      ensures r.Ok? ==> r.value == ElementText(element.children[queryEl.value], INSTRUCTIONS)
    {
      PayloadText(element, queryEl, INSTRUCTIONS)
    }

    /** setInstructions: reads back, and the attributes are unchanged. */
    method SetInstructions(instructions: string) returns (outcome: Outcome<PacketError>)
      requires Valid()
      modifies this
      ensures Valid()
      ensures outcome.Fail? <==> queryEl.None?
      ensures outcome.Fail? ==> element == old(element)
      ensures outcome.Pass? ==> element == UpdatePayloadText(old(element), queryEl, INSTRUCTIONS, instructions).value
      ensures outcome.Pass? ==> GetInstructions() == Ok(Some(instructions))
      ensures outcome.Pass? ==> AttributesOf(Query().children) == old(AttributesOf(Query().children))
    {
      var r := UpdatePayloadText(element, queryEl, INSTRUCTIONS, instructions);
      if r.Err? {
        return Fail(r.error);
      }
      AttributesAfterUpdate(Query(), INSTRUCTIONS, instructions);
      element := r.value;
      outcome := Pass;
    }

    /** getAttributes. */
    method GetAttributes() returns (r: Result<Option<map<string, string>>, PacketError>)
      requires Valid()
      ensures r.Err? <==> queryEl.None?
      ensures r.Ok? ==> r.value == AttributesOf(Query().children)
    {
      if queryEl.None? {
        return Err(NullPointer);
      }
      var elements := Query().children;
      var attributes: Option<map<string, string>> := None;
      for i := 0 to |elements|
        invariant attributes == AttributesOf(elements[..i])
      {
        assert elements[..i + 1][..i] == elements[..i];
        var element := elements[i];
        if element.name != INSTRUCTIONS {
          if attributes.None? {
            attributes := Some(map[]);
          }
          attributes := Some(attributes.value[element.name := element.text]);
        }
      }
      assert elements[..|elements|] == elements;
      return Ok(attributes);
    }

    /**
     * setAttributes: updateText for every entry of the map, in the map's
     * iteration order. Afterwards every key reads back its value, no child
     * of another name changes, and (when the query's children have distinct
     * names, as updateText keeps them) getAttributes is the old attributes
     * overwritten by the map without `instructions`.
     */
    method SetAttributes(attributes: map<string, string>) returns (outcome: Outcome<PacketError>)
      requires Valid()
      modifies this
      ensures Valid()
      ensures outcome.Fail? <==> queryEl.None? && attributes != map[]
      ensures outcome.Fail? || queryEl.None? ==> element == old(element)
      ensures outcome.Pass? && queryEl.Some? ==>
        && element == old(element).(children := old(element).children[queryEl.value := Query()])
        && WrittenTexts(old(Query()), Query(), attributes)
        && WrittenAttributes(old(Query()), Query(), attributes)
    {
      if attributes == map[] {
        if queryEl.Some? {
          NothingWritten(Query());
        }
        return Pass;
      }
      if queryEl.None? {
        return Fail(NullPointer);
      }
      var at := queryEl.value;
      var q := WriteAttributes(Query(), attributes);
      element := element.(children := element.children[at := q]);
      outcome := Pass;
    }
  }
}
