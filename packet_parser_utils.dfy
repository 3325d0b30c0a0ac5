/**
 * Element and pull-parser utilities shared by the packet reader: the SASL
 * mechanism and compression-method lists of the stream features, stream
 * errors (section 4.9 of RFC 6120), stanza errors (section 8.3 of RFC 6120)
 * with their application-specific extensions, the value decoder and
 * updateText.
 */
module PacketParserUtils {
  import opened Wrappers
  import opened Xml

  const STREAMS_NS := "urn:ietf:params:xml:ns:xmpp-streams"
  const STANZAS_NS := "urn:ietf:params:xml:ns:xmpp-stanzas"

  const MIN_INT: int := -0x8000_0000
  const MAX_INT: int := 0x7fff_ffff
  const MIN_LONG: int := -0x8000_0000_0000_0000
  const MAX_LONG: int := 0x7fff_ffff_ffff_ffff

  /** Why a parse threw. */
  datatype ParseFailure =
    | PullFailed(cause: PullError)
    | NumberFormat(input: string)
    | NoSuchElement

  // ---------------------------------------------------------------------
  // parseMechanisms, parseCompressionMethods
  // ---------------------------------------------------------------------

  /** The text of every element of `cs` called `name`, in document order. */
  function ChildTextsOf(cs: seq<Element>, name: string): (r: seq<string>)
    ensures var named := ChildrenNamed(cs, name);
      |r| == |named| && forall i :: 0 <= i < |r| ==> r[i] == named[i].text
  {
    if |cs| == 0 then []
    else if cs[0].name == name then [cs[0].text] + ChildTextsOf(cs[1..], name)
    else ChildTextsOf(cs[1..], name)
  }

  /** The loop shared by parseMechanisms and parseCompressionMethods. */
  method ChildTexts(el: Element, name: string) returns (r: seq<string>)
    ensures r == ChildTextsOf(el.children, name)
  {
    var named := ChildrenNamed(el.children, name);
    r := [];
    for i := 0 to |named|
      invariant |r| == i
      invariant forall j :: 0 <= j < i ==> r[j] == named[j].text
    {
      r := r + [named[i].text];
    }
  }

  /** parseMechanisms: the text of each `mechanism` child of the SASL features element, in document order. */
  method ParseMechanisms(mechanismsEl: Element) returns (r: seq<string>)
    ensures r == ChildTextsOf(mechanismsEl.children, "mechanism")
  {
    r := ChildTexts(mechanismsEl, "mechanism");
  }

  /** parseCompressionMethods: the text of each `method` child, in document order. */
  method ParseCompressionMethods(compressionEl: Element) returns (r: seq<string>)
    ensures r == ChildTextsOf(compressionEl.children, "method")
  {
    r := ChildTexts(compressionEl, "method");
  }

  // ---------------------------------------------------------------------
  // parseStreamError
  // ---------------------------------------------------------------------

  /** A stream error: its defined condition and its descriptive text, each possibly null. */
  datatype StreamError = StreamError(code: Option<string>, text: Option<string>)

  /**
   * parseStreamError as written: the condition's namespace (a dom4j
   * Namespace) is compared with a String, which is never equal, and the text
   * is looked up inside the condition element.
   */
  function ParseStreamErrorAsWritten(el: Element): (r: Result<StreamError, ParseFailure>)
    ensures r.Err? <==> |el.children| == 0
    ensures r.Ok? ==> r.value.code.None?
    ensures r.Ok? ==> r.value.text == ElementText(el.children[0], "text")
  {
    match FirstChild(el)
    case None => Err(NoSuchElement)
    case Some(condEl) =>
      var code := if JavaEquals(NamespaceObject(condEl.ns), StringObject(STREAMS_NS)) then Some(condEl.name) else None;
      Ok(StreamError(code, ElementText(condEl, "text")))
  }

  /**
   * parseStreamError as the stream-error format of section 4.9 of RFC 6120
   * calls for: the code is the first child's name when that child is in the
   * streams namespace, and the text is the `text` child of the error element,
   * a sibling of the condition.
   */
  function ParseStreamError(el: Element): (r: Result<StreamError, ParseFailure>)
    ensures r.Err? <==> |el.children| == 0
    ensures r.Ok? ==> (r.value.code.Some? <==> el.children[0].ns == STREAMS_NS)
    ensures r.Ok? && r.value.code.Some? ==> r.value.code.value == el.children[0].name
    ensures r.Ok? ==> r.value.text == ElementText(el, "text")
  {
    match FirstChild(el)
    case None => Err(NoSuchElement)
    case Some(condEl) =>
      var code := if condEl.ns == STREAMS_NS then Some(condEl.name) else None;
      Ok(StreamError(code, ElementText(el, "text")))
  }

  /** The stream error `<conflict/><text>t</text>` of section 4.9 of RFC 6120. */
  function ConflictError(t: string): Element
  {
    Element("error", "http://etherx.jabber.org/streams", [], [Leaf("conflict", STREAMS_NS), Element("text", STREAMS_NS, [], [], t)], "")
  }

  /**
   * On a well-formed stream error the code written never reports the
   * condition nor the text, while the corrected reading reports both.
   */
  lemma StreamErrorAsWrittenLosesConflict(t: string)
    ensures ParseStreamErrorAsWritten(ConflictError(t)) == Ok(StreamError(None, None))
    ensures ParseStreamError(ConflictError(t)) == Ok(StreamError(Some("conflict"), Some(t)))
  {
    var e := ConflictError(t);
    assert FirstNamed(e.children, "text") == Some(1);
  }

  // ---------------------------------------------------------------------
  // Java integer parsing (Integer.parseInt, Long.valueOf) and printing
  // ---------------------------------------------------------------------

  predicate IsDigit(c: char) { '0' <= c <= '9' }

  predicate AllDigits(s: string) { forall i :: 0 <= i < |s| ==> IsDigit(s[i]) }

  /** The value of a string of decimal digits, most significant first. */
  function DigitsValue(s: string): nat
    requires AllDigits(s)
  {
    if |s| == 0 then 0 else DigitsValue(s[..|s| - 1]) * 10 + (s[|s| - 1] as int - '0' as int)
  }

  /**
   * Parsing a decimal integer of Java's `int` (lo = MIN_INT, hi = MAX_INT) or
   * `long` range: an optional sign, at least one ASCII digit, and a value in
   * range, or a NumberFormatException.
   */
  function ParseInteger(s: string, lo: int, hi: int): (r: Option<int>)
    ensures r.Some? ==> lo <= r.value <= hi
    ensures |s| > 0 && AllDigits(s) ==> r == if lo <= DigitsValue(s) <= hi then Some(DigitsValue(s)) else None
    ensures |s| > 1 && s[0] == '+' && AllDigits(s[1..]) ==>
      r == if lo <= DigitsValue(s[1..]) <= hi then Some(DigitsValue(s[1..])) else None
    ensures |s| > 1 && s[0] == '-' && AllDigits(s[1..]) ==>
      r == if lo <= 0 - DigitsValue(s[1..]) as int <= hi then Some(0 - DigitsValue(s[1..]) as int) else None
    ensures r.Some? ==> |s| > 0 && AllDigits(s[1..]) && (IsDigit(s[0]) || (|s| > 1 && (s[0] == '+' || s[0] == '-')))
  {
    if |s| == 0 then None
    else
      var digits := if s[0] == '-' || s[0] == '+' then s[1..] else s;
      if |digits| == 0 || !AllDigits(digits) then None
      else
        var v: int := if s[0] == '-' then 0 - DigitsValue(digits) as int else DigitsValue(digits);
        if lo <= v <= hi then Some(v) else None
  }

  /** The decimal digits of a natural number, as Integer.toString prints them. */
  function NatToString(n: nat): (r: string)
    ensures |r| > 0 && AllDigits(r)
    decreases n
  {
    var d := ['0' + (n % 10) as char];
    if n < 10 then d else NatToString(n / 10) + d
  }

  /** Integer.toString: a minus sign iff the number is negative, then the decimal digits of its magnitude. */
  function IntToString(n: int): (r: string)
    ensures |r| > 0 && (r[0] == '-' <==> n < 0)
    ensures n >= 0 ==> AllDigits(r) && DigitsValue(r) == n
    ensures n < 0 ==> AllDigits(r[1..]) && DigitsValue(r[1..]) == -n
  {
    if n < 0 then
      var r := "-" + NatToString(-n);
      DigitsOfNatToString(-n);
      assert r[1..] == NatToString(-n);
      r
    else
      DigitsOfNatToString(n);
      NatToString(n)
  }

  lemma {:induction false} DigitsOfNatToString(n: nat)
    ensures DigitsValue(NatToString(n)) == n
    decreases n
  {
    var s := NatToString(n);
    if n >= 10 {
      DigitsOfNatToString(n / 10);
      assert s[..|s| - 1] == NatToString(n / 10);
    }
  }

  /** Parsing what Integer.toString printed gives the number back, across the whole range. */
  lemma ParseIntegerOfToString(n: int, lo: int, hi: int)
    requires lo <= n <= hi
    ensures ParseInteger(IntToString(n), lo, hi) == Some(n)
  {
  }

  /** The default error code "-1" is a valid int. */
  lemma DefaultCodeParses()
    ensures ParseInteger("-1", MIN_INT, MAX_INT) == Some(-1)
  {
    assert "-1"[1..] == "1";
    assert "1"[..0] == "";
  }

  // ---------------------------------------------------------------------
  // parseError, parsePacketExtension
  // ---------------------------------------------------------------------

  /** XMPPError.Type. */
  datatype ErrorType = Wait | Cancel | Modify | Auth | Continue

  /** The type attribute of section 8.3.2 of RFC 6120. */
  function ErrorTypeWireName(t: ErrorType): string
  {
    match t
    case Wait => "wait"
    case Cancel => "cancel"
    case Modify => "modify"
    case Auth => "auth"
    case Continue => "continue"
  }

  /** The name of the XMPPError.Type constant. */
  function ErrorTypeName(t: ErrorType): string
  {
    match t
    case Wait => "WAIT"
    case Cancel => "CANCEL"
    case Modify => "MODIFY"
    case Auth => "AUTH"
    case Continue => "CONTINUE"
  }

  /** XMPPError.Type.valueOf: the constant with exactly this name, or an IllegalArgumentException. */
  function ErrorTypeValueOf(s: string): (r: Option<ErrorType>)
    ensures r.Some? <==> exists t :: ErrorTypeName(t) == s
    ensures r.Some? ==> ErrorTypeName(r.value) == s
  {
    if s == "WAIT" then assert ErrorTypeName(Wait) == s; Some(Wait)
    else if s == "CANCEL" then assert ErrorTypeName(Cancel) == s; Some(Cancel)
    else if s == "MODIFY" then assert ErrorTypeName(Modify) == s; Some(Modify)
    else if s == "AUTH" then assert ErrorTypeName(Auth) == s; Some(Auth)
    else if s == "CONTINUE" then assert ErrorTypeName(Continue) == s; Some(Continue)
    else None
  }

  /** String.toUpperCase on ASCII letters. */
  function AsciiUpper(s: string): (r: string)
    ensures |r| == |s|
    ensures forall i :: 0 <= i < |s| && !('a' <= s[i] <= 'z') ==> r[i] == s[i]
    ensures forall i :: 0 <= i < |s| && 'a' <= s[i] <= 'z' ==> r[i] as int == s[i] as int - 32 && 'A' <= r[i] <= 'Z'
  {
    seq(|s|, i requires 0 <= i < |s| => if 'a' <= s[i] <= 'z' then (s[i] as int - 32) as char else s[i])
  }

  /** The error type of the `type` attribute: CANCEL when absent or not a known type. */
  function ParseErrorType(t: Option<string>): (r: ErrorType)
    ensures t.None? ==> r == Cancel
    ensures t.Some? && ErrorTypeValueOf(AsciiUpper(t.value)).None? ==> r == Cancel
    ensures t.Some? && ErrorTypeValueOf(AsciiUpper(t.value)).Some? ==> r == ErrorTypeValueOf(AsciiUpper(t.value)).value
    ensures forall e :: t.Some? && AsciiUpper(t.value) == ErrorTypeName(e) ==> r == e
  {
    match t
    case None => Cancel
    case Some(s) =>
      (match ErrorTypeValueOf(AsciiUpper(s))
       case None => Cancel
       case Some(e) => e)
  }

  /** Every error type reads back from its wire name. */
  lemma ErrorTypeRoundTrip(t: ErrorType)
    ensures ParseErrorType(Some(ErrorTypeWireName(t))) == t
  {
    var upper := AsciiUpper(ErrorTypeWireName(t));
    match t
    case Wait => assert upper == "WAIT";
    case Cancel => assert upper == "CANCEL";
    case Modify => assert upper == "MODIFY";
    case Auth => assert upper == "AUTH";
    case Continue => assert upper == "CONTINUE";
  }

  /** DefaultPacketExtension: element name, namespace and the name/value map of its child elements. */
  datatype PacketExtension = PacketExtension(elementName: string, namespace: string, values: map<string, string>)

  /**
   * The loop of parsePacketExtension over the events after the extension's
   * START_TAG: an empty child tag maps its name to "", a child tag followed
   * by text maps its name to that text, and the loop ends at the END_TAG
   * called `elementName`. Returns the values and the events left after it.
   */
  function ExtensionLoop(evs: seq<PullEvent>, elementName: string, values: map<string, string>)
    : (r: Result<(map<string, string>, seq<PullEvent>), PullError>)
    ensures r.Ok? ==> IsSuffix(r.value.1, evs) && |r.value.1| < |evs|
    ensures r.Err? ==> r.error == EndOfInput
    decreases |evs|
  {
    if |evs| == 0 then Err(EndOfInput)
    else match evs[0]
      case StartTag(name, _, _, isEmpty) =>
        if isEmpty then
          var r := ExtensionLoop(evs[1..], elementName, values[name := ""]);
          if r.Ok? then SuffixOfTail(r.value.1, evs, 1); r else r
        else if |evs| == 1 then Err(EndOfInput)
        else
          var r := ExtensionLoop(evs[2..], elementName, if evs[1].TextEvent? then values[name := evs[1].text] else values);
          if r.Ok? then SuffixOfTail(r.value.1, evs, 2); r else r
      case EndTag(name) =>
        if name == elementName then Ok((values, evs[1..]))
        else
          var r := ExtensionLoop(evs[1..], elementName, values);
          if r.Ok? then SuffixOfTail(r.value.1, evs, 1); r else r
      case TextEvent(_) =>
        var r := ExtensionLoop(evs[1..], elementName, values);
        if r.Ok? then SuffixOfTail(r.value.1, evs, 1); r else r
  }

  /** parsePacketExtension, positioned just after the extension's START_TAG. */
  method ParsePacketExtension(elementName: string, namespace: string, parser: PullParser)
    returns (r: Result<PacketExtension, PullError>)
    requires parser.Valid()
    modifies parser
    ensures parser.Valid()
    ensures var spec := ExtensionLoop(parser.events[old(parser.pos)..], elementName, map[]);
      match r
      case Ok(ext) =>
        spec.Ok? && ext == PacketExtension(elementName, namespace, spec.value.0) && parser.events[parser.pos..] == spec.value.1
      case Err(e) => spec == Err(e)
  {
    ghost var start := parser.pos;
    var values: map<string, string> := map[];
    var done := false;
    while !done
      invariant parser.Valid()
      invariant !done ==> ExtensionLoop(parser.events[parser.pos..], elementName, values)
                          == ExtensionLoop(parser.events[start..], elementName, map[])
      invariant done ==> ExtensionLoop(parser.events[start..], elementName, map[]) == Ok((values, parser.events[parser.pos..]))
      decreases if done then 0 else 1, |parser.events| - parser.pos
    {
      ghost var evs := parser.events[parser.pos..];
      var ev := parser.Next();
      if ev.Err? {
        return Err(ev.error);
      }
      assert evs[1..] == parser.events[parser.pos..];
      match ev.value
      case StartTag(name, _, _, isEmpty) =>
        if isEmpty {
          values := values[name := ""];
        } else {
          var ev2 := parser.Next();
          if ev2.Err? {
            return Err(ev2.error);
          }
          assert evs[2..] == parser.events[parser.pos..];
          if ev2.value.TextEvent? {
            values := values[name := ev2.value.text];
          }
        }
      case EndTag(name) =>
        if name == elementName {
          done := true;
        }
      case TextEvent(_) =>
    }
    r := Ok(PacketExtension(elementName, namespace, values));
  }

  /**
   * The child elements of an extension as a sender writes them: an empty
   * value as an empty-element tag, any other value as the tag's text.
   */
  function FieldEvents(fields: seq<(string, string)>): seq<PullEvent>
  {
    if |fields| == 0 then [] else OneFieldEvents(fields[0].0, fields[0].1) + FieldEvents(fields[1..])
  }

  /** The events of one field. */
  function OneFieldEvents(n: string, v: string): seq<PullEvent>
  {
    if v == "" then [StartTag(n, "", [], true), EndTag(n)] else [StartTag(n, "", [], false), TextEvent(v), EndTag(n)]
  }

  /** The values map after setting each field in turn, later fields overriding earlier ones. */
  function WithFields(values: map<string, string>, fields: seq<(string, string)>): map<string, string>
    decreases |fields|
  {
    if |fields| == 0 then values else WithFields(values[fields[0].0 := fields[0].1], fields[1..])
  }

  /**
   * parsePacketExtension reads back every field of an extension, provided
   * no field is called like the extension itself (whose END_TAG would stop
   * the loop early).
   */
  lemma {:induction false} ExtensionLoopReadsFields(fields: seq<(string, string)>, elementName: string,
                                                    values: map<string, string>, rest: seq<PullEvent>)
    requires forall i :: 0 <= i < |fields| ==> fields[i].0 != elementName
    ensures ExtensionLoop(FieldEvents(fields) + [EndTag(elementName)] + rest, elementName, values)
            == Ok((WithFields(values, fields), rest))
    decreases |fields|
  {
    var evs := FieldEvents(fields) + [EndTag(elementName)] + rest;
    if |fields| == 0 {
      assert evs == [EndTag(elementName)] + rest;
      assert evs[1..] == rest;
    } else {
      var (n, v) := fields[0];
      var tail := FieldEvents(fields[1..]) + [EndTag(elementName)] + rest;
      ExtensionLoopReadsFields(fields[1..], elementName, values[n := v], rest);
      FirstFieldEvents(fields, EndTag(elementName), rest);
      FieldStep(n, v, elementName, values, tail);
    }
  }

  /** The events of the first field come first, then the events of the others and whatever follows. */
  lemma FirstFieldEvents(fields: seq<(string, string)>, end: PullEvent, rest: seq<PullEvent>)
    requires |fields| > 0
    ensures FieldEvents(fields) + [end] + rest == OneFieldEvents(fields[0].0, fields[0].1) + (FieldEvents(fields[1..]) + [end] + rest)
  {
    var head := OneFieldEvents(fields[0].0, fields[0].1);
    var others := FieldEvents(fields[1..]);
    assert FieldEvents(fields) == head + others;
    assert head + others + [end] + rest == head + (others + [end] + rest);
  }

  /** One field, written as a sender writes it, is read into `values` and then the loop goes on. */
  lemma FieldStep(n: string, v: string, elementName: string, values: map<string, string>, tail: seq<PullEvent>)
    requires n != elementName
    ensures ExtensionLoop(OneFieldEvents(n, v) + tail, elementName, values) == ExtensionLoop(tail, elementName, values[n := v])
  {
    var evs := OneFieldEvents(n, v) + tail;
    if v == "" {
      assert evs == [StartTag(n, "", [], true), EndTag(n)] + tail;
      assert evs[1..][1..] == tail;
      assert ExtensionLoop(evs[1..], elementName, values[n := v])
          == ExtensionLoop(evs[1..][1..], elementName, values[n := v]);
    } else {
      assert evs == [StartTag(n, "", [], false), TextEvent(v), EndTag(n)] + tail;
      assert evs[2..][1..] == tail;
      assert ExtensionLoop(evs[2..], elementName, values[n := v])
          == ExtensionLoop(evs[2..][1..], elementName, values[n := v]);
    }
  }

  /** The condition, message and extensions parseError collects inside the error element. */
  datatype ErrorBody = ErrorBody(condition: Option<string>, message: Option<string>, extensions: seq<PacketExtension>)

  /**
   * The loop of parseError over the events after `<error>`: `text` sets the
   * message, any other child in the stanzas namespace sets the condition,
   * any other child is read as an extension, and the loop ends at the
   * `error` END_TAG.
   */
  function ErrorLoop(evs: seq<PullEvent>, body: ErrorBody): (r: Result<(ErrorBody, seq<PullEvent>), ParseFailure>)
    ensures r.Ok? ==> IsSuffix(r.value.1, evs) && |r.value.1| < |evs|
    ensures r.Err? ==> r.error.PullFailed?
    decreases |evs|
  {
    if |evs| == 0 then Err(PullFailed(EndOfInput))
    else match evs[0]
      case StartTag(name, ns, _, _) =>
        if name == "text" then
          (match NextTextOf(evs[1..])
           case Err(e) => Err(PullFailed(e))
           case Ok((t, after)) =>
             SuffixOfTail(after, evs, 1);
             var r := ErrorLoop(after, body.(message := Some(t)));
             if r.Ok? then SuffixOfTail(r.value.1, evs, |evs| - |after|); r else r)
        else if ns == STANZAS_NS then
          var r := ErrorLoop(evs[1..], body.(condition := Some(name)));
          if r.Ok? then SuffixOfTail(r.value.1, evs, 1); r else r
        else
          (match ExtensionLoop(evs[1..], name, map[])
           case Err(e) => Err(PullFailed(e))
           case Ok((values, after)) =>
             SuffixOfTail(after, evs, 1);
             var r := ErrorLoop(after, body.(extensions := body.extensions + [PacketExtension(name, ns, values)]));
             if r.Ok? then SuffixOfTail(r.value.1, evs, |evs| - |after|); r else r)
      case EndTag(name) =>
        if name == "error" then Ok((body, evs[1..]))
        else
          var r := ErrorLoop(evs[1..], body);
          if r.Ok? then SuffixOfTail(r.value.1, evs, 1); r else r
      case TextEvent(_) =>
        var r := ErrorLoop(evs[1..], body);
        if r.Ok? then SuffixOfTail(r.value.1, evs, 1); r else r
  }

  /** XMPPError: code, type, defined condition, descriptive text and application-specific extensions. */
  datatype XmppError = XmppError(code: int, errorType: ErrorType, condition: Option<string>,
                                 message: Option<string>, extensions: seq<PacketExtension>)

  /**
   * parseError, given the attributes of `<error>` and the events after it:
   * the code defaults to "-1" and must parse as a Java int, the type
   * defaults to CANCEL. Returns the error and the events left after it.
   */
  function ErrorOf(attrs: Attrs, evs: seq<PullEvent>): (r: Result<(XmppError, seq<PullEvent>), ParseFailure>)
    ensures r.Ok? && AttrValue(attrs, "code").None? ==> r.value.0.code == -1
    ensures r.Ok? && AttrValue(attrs, "type").None? ==> r.value.0.errorType == Cancel
    ensures r.Ok? ==> MIN_INT <= r.value.0.code <= MAX_INT
  {
    var code := match AttrValue(attrs, "code") case Some(c) => c case None => "-1";
    DefaultCodeParses();
    match ErrorLoop(evs, ErrorBody(None, None, []))
    case Err(e) => Err(e)
    case Ok((body, rest)) =>
      (match ParseInteger(code, MIN_INT, MAX_INT)
       case None => Err(NumberFormat(code))
       case Some(n) =>
         Ok((XmppError(n, ParseErrorType(AttrValue(attrs, "type")), body.condition, body.message, body.extensions), rest)))
  }

  /** parseError, with the parser positioned on the START_TAG of `<error>`. */
  method ParseError(parser: PullParser) returns (r: Result<XmppError, ParseFailure>)
    requires parser.Valid() && 0 < parser.pos && parser.events[parser.pos - 1].StartTag?
    modifies parser
    ensures parser.Valid()
    ensures var spec := ErrorOf(parser.events[old(parser.pos) - 1].attrs, parser.events[old(parser.pos)..]);
      match r
      case Ok(e) => spec == Ok((e, parser.events[parser.pos..]))
      case Err(f) => spec == Err(f)
  {
    ghost var start := parser.pos;
    var attrs := parser.events[parser.pos - 1].attrs;
    var errorCode := "-1";
    var errorType: Option<string> := None;
    match AttrValue(attrs, "code") {
      case Some(c) => errorCode := c;
      case None =>
    }
    match AttrValue(attrs, "type") {
      case Some(t) => errorType := Some(t);
      case None =>
    }
    var body := ErrorBody(None, None, []);
    var done := false;
    while !done
      invariant parser.Valid()
      invariant !done ==> ErrorLoop(parser.events[parser.pos..], body) == ErrorLoop(parser.events[start..], ErrorBody(None, None, []))
      invariant done ==> ErrorLoop(parser.events[start..], ErrorBody(None, None, [])) == Ok((body, parser.events[parser.pos..]))
      decreases if done then 0 else 1, |parser.events| - parser.pos
    {
      ghost var evs := parser.events[parser.pos..];
      var ev := parser.Next();
      if ev.Err? {
        return Err(PullFailed(ev.error));
      }
      assert evs[1..] == parser.events[parser.pos..];
      match ev.value
      case StartTag(name, ns, _, _) =>
        if name == "text" {
          var t := parser.NextText();
          if t.Err? {
            return Err(PullFailed(t.error));
          }
          body := body.(message := Some(t.value));
        } else if ns == STANZAS_NS {
          body := body.(condition := Some(name));
        } else {
          var ext := ParsePacketExtension(name, ns, parser);
          if ext.Err? {
            return Err(PullFailed(ext.error));
          }
          body := body.(extensions := body.extensions + [ext.value]);
        }
      case EndTag(name) =>
        if name == "error" {
          done := true;
        }
      case TextEvent(_) =>
    }
    var parsedType := ParseErrorType(errorType);
    var code := ParseInteger(errorCode, MIN_INT, MAX_INT);
    if code.None? {
      return Err(NumberFormat(errorCode));
    }
    r := Ok(XmppError(code.value, parsedType, body.condition, body.message, body.extensions));
  }

  // ---------------------------------------------------------------------
  // Stanza errors as a sender writes them (section 8.3 of RFC 6120)
  // ---------------------------------------------------------------------

  /** One child of `<error>`: the defined condition, the descriptive text, or an application-specific extension. */
  datatype ErrorChild =
    | ConditionChild(name: string)
    | TextChild(text: string)
    | ExtensionChild(name: string, ns: string, fields: seq<(string, string)>)

  /** The events of one child of `<error>`. */
  function ErrorChildEvents(c: ErrorChild): seq<PullEvent>
  {
    match c
    case ConditionChild(n) => [StartTag(n, STANZAS_NS, [], true), EndTag(n)]
    case TextChild(t) =>
      [StartTag("text", STANZAS_NS, [], false)] + (if t == "" then [] else [TextEvent(t)]) + [EndTag("text")]
    case ExtensionChild(n, ns, fields) => [StartTag(n, ns, [], false)] + FieldEvents(fields) + [EndTag(n)]
  }

  function ErrorChildrenEvents(cs: seq<ErrorChild>): seq<PullEvent>
  {
    if |cs| == 0 then [] else ErrorChildEvents(cs[0]) + ErrorChildrenEvents(cs[1..])
  }

  /**
   * A child parseError can read back: a condition not called `text` or
   * `error`, any text, and an extension outside the stanzas namespace, not
   * called `text`, none of whose fields is called like the extension.
   */
  predicate Readable(c: ErrorChild)
  {
    match c
    case ConditionChild(n) => n != "text" && n != "error"
    case TextChild(_) => true
    case ExtensionChild(n, ns, fields) =>
      n != "text" && ns != STANZAS_NS && forall i :: 0 <= i < |fields| ==> fields[i].0 != n
  }

  /** What reading one child does to the collected body. */
  function Absorb(body: ErrorBody, c: ErrorChild): ErrorBody
  {
    match c
    case ConditionChild(n) => body.(condition := Some(n))
    case TextChild(t) => body.(message := Some(t))
    case ExtensionChild(n, ns, fields) =>
      body.(extensions := body.extensions + [PacketExtension(n, ns, WithFields(map[], fields))])
  }

  /** What reading the children in order leaves: the last condition, the last text, every extension in order. */
  function Collect(body: ErrorBody, cs: seq<ErrorChild>): ErrorBody
    decreases |cs|
  {
    if |cs| == 0 then body else Collect(Absorb(body, cs[0]), cs[1..])
  }

  lemma ErrorLoopReadsCondition(n: string, body: ErrorBody, tail: seq<PullEvent>)
    requires Readable(ConditionChild(n))
    ensures ErrorLoop(ErrorChildEvents(ConditionChild(n)) + tail, body) == ErrorLoop(tail, Absorb(body, ConditionChild(n)))
  {
    var evs := ErrorChildEvents(ConditionChild(n)) + tail;
    assert evs[1..][1..] == tail;
  }

  lemma ErrorLoopReadsText(t: string, body: ErrorBody, tail: seq<PullEvent>)
    ensures ErrorLoop(ErrorChildEvents(TextChild(t)) + tail, body) == ErrorLoop(tail, Absorb(body, TextChild(t)))
  {
    var evs := ErrorChildEvents(TextChild(t)) + tail;
    if t == "" {
      assert evs[1..][1..] == tail;
      assert NextTextOf(evs[1..]) == Ok((t, tail));
    } else {
      assert evs[1..][2..] == tail;
      assert NextTextOf(evs[1..]) == Ok((t, tail));
    }
  }

  lemma ErrorLoopReadsExtension(n: string, ns: string, fields: seq<(string, string)>, body: ErrorBody, tail: seq<PullEvent>)
    requires Readable(ExtensionChild(n, ns, fields))
    ensures ErrorLoop(ErrorChildEvents(ExtensionChild(n, ns, fields)) + tail, body)
            == ErrorLoop(tail, Absorb(body, ExtensionChild(n, ns, fields)))
  {
    var evs := ErrorChildEvents(ExtensionChild(n, ns, fields)) + tail;
    assert evs[1..] == FieldEvents(fields) + [EndTag(n)] + tail;
    ExtensionLoopReadsFields(fields, n, map[], tail);
  }

  /** The loop of parseError reads back every readable child, up to the `error` END_TAG. */
  lemma {:induction false} ErrorLoopReadsChildren(cs: seq<ErrorChild>, body: ErrorBody, rest: seq<PullEvent>)
    requires forall i :: 0 <= i < |cs| ==> Readable(cs[i])
    ensures ErrorLoop(ErrorChildrenEvents(cs) + [EndTag("error")] + rest, body) == Ok((Collect(body, cs), rest))
    decreases |cs|
  {
    var evs := ErrorChildrenEvents(cs) + [EndTag("error")] + rest;
    if |cs| == 0 {
      assert evs == [EndTag("error")] + rest;
      assert evs[1..] == rest;
    } else {
      var tail := ErrorChildrenEvents(cs[1..]) + [EndTag("error")] + rest;
      assert evs == ErrorChildEvents(cs[0]) + tail;
      ErrorLoopReadsChildren(cs[1..], Absorb(body, cs[0]), rest);
      match cs[0]
      case ConditionChild(n) => ErrorLoopReadsCondition(n, body, tail);
      case TextChild(t) => ErrorLoopReadsText(t, body, tail);
      case ExtensionChild(n, ns, fields) => ErrorLoopReadsExtension(n, ns, fields, body, tail);
    }
  }

  /**
   * parseError reads back a stanza error with a code in the int range, any
   * type of section 8.3.2 of RFC 6120 and readable children.
   */
  lemma ParseErrorReadsBack(code: int, t: ErrorType, cs: seq<ErrorChild>, rest: seq<PullEvent>)
    requires MIN_INT <= code <= MAX_INT
    requires forall i :: 0 <= i < |cs| ==> Readable(cs[i])
    ensures var body := Collect(ErrorBody(None, None, []), cs);
      ErrorOf([("code", IntToString(code)), ("type", ErrorTypeWireName(t))], ErrorChildrenEvents(cs) + [EndTag("error")] + rest)
      == Ok((XmppError(code, t, body.condition, body.message, body.extensions), rest))
  {
    var attrs := [("code", IntToString(code)), ("type", ErrorTypeWireName(t))];
    assert AttrValue(attrs, "code") == Some(IntToString(code));
    assert AttrValue(attrs, "type") == Some(ErrorTypeWireName(t));
    ErrorLoopReadsChildren(cs, ErrorBody(None, None, []), rest);
    ParseIntegerOfToString(code, MIN_INT, MAX_INT);
    ErrorTypeRoundTrip(t);
  }

  // ---------------------------------------------------------------------
  // decode
  // ---------------------------------------------------------------------

  /** The value decode returns, by the Java type it boxes. */
  datatype Decoded = StringValue(s: string) | BooleanValue(b: bool) | IntValue(i: int) | LongValue(l: int) | NullValue

  /** The class names whose decoding needs floating point or class loading. */
  predicate NeedsForeignDecoder(typeName: string)
  {
    typeName == "float" || typeName == "double" || typeName == "java.lang.Class"
  }

  /**
   * decode: a String unchanged, a boolean as Boolean.valueOf reads it, an
   * int or long as Integer.valueOf / Long.valueOf read it, and null for any
   * other type.
   */
  function Decode(typeName: string, value: string): (r: Result<Decoded, ParseFailure>)
    requires !NeedsForeignDecoder(typeName)
    ensures typeName == "java.lang.String" ==> r == Ok(StringValue(value))
    ensures typeName !in {"java.lang.String", "boolean", "int", "long"} ==> r == Ok(NullValue)
    ensures typeName == "boolean" ==> r == Ok(BooleanValue(IsTrueIgnoringCase(value)))
    ensures typeName == "int" ==> (r.Ok? <==> ParseInteger(value, MIN_INT, MAX_INT).Some?)
    ensures typeName == "int" && r.Ok? ==> r.value == IntValue(ParseInteger(value, MIN_INT, MAX_INT).value) && MIN_INT <= r.value.i <= MAX_INT
    ensures typeName == "long" ==> (r.Ok? <==> ParseInteger(value, MIN_LONG, MAX_LONG).Some?)
    ensures typeName == "long" && r.Ok? ==> r.value == LongValue(ParseInteger(value, MIN_LONG, MAX_LONG).value) && MIN_LONG <= r.value.l <= MAX_LONG
    ensures typeName in {"int", "long"} && r.Err? ==> r.error == NumberFormat(value)
  {
    assert AsciiUpper(value) == "TRUE" <==> IsTrueIgnoringCase(value) by { AsciiUpperIsTrue(value); }
    if typeName == "java.lang.String" then Ok(StringValue(value))
    else if typeName == "boolean" then Ok(BooleanValue(AsciiUpper(value) == "TRUE"))
    else if typeName == "int" then
      (match ParseInteger(value, MIN_INT, MAX_INT)
       case None => Err(NumberFormat(value))
       case Some(n) => Ok(IntValue(n)))
    else if typeName == "long" then
      (match ParseInteger(value, MIN_LONG, MAX_LONG)
       case None => Err(NumberFormat(value))
       case Some(n) => Ok(LongValue(n)))
    else Ok(NullValue)
  }

  /** Boolean.valueOf's test: "true" in any mixture of upper and lower case. */
  predicate IsTrueIgnoringCase(v: string)
  {
    && |v| == 4
    && (v[0] == 't' || v[0] == 'T') && (v[1] == 'r' || v[1] == 'R')
    && (v[2] == 'u' || v[2] == 'U') && (v[3] == 'e' || v[3] == 'E')
  }

  /** Upper-casing a string gives "TRUE" exactly when it is "true" ignoring case. */
  lemma AsciiUpperIsTrue(v: string)
    ensures AsciiUpper(v) == "TRUE" <==> IsTrueIgnoringCase(v)
  {
    var u := AsciiUpper(v);
    if |v| == 4 {
      if u == "TRUE" {
        assert u[0] == 'T' && u[1] == 'R' && u[2] == 'U' && u[3] == 'E';
      }
      if IsTrueIgnoringCase(v) {
        assert u[0] == 'T' && u[1] == 'R' && u[2] == 'U' && u[3] == 'E';
        assert u == "TRUE";
      }
    }
  }

  /** decode inverts the way Java prints booleans, ints and longs. */
  lemma DecodeReadsPrinted(b: bool, n: int)
    ensures Decode("boolean", if b then "true" else "false") == Ok(BooleanValue(b))
    ensures MIN_INT <= n <= MAX_INT ==> Decode("int", IntToString(n)) == Ok(IntValue(n))
    ensures MIN_LONG <= n <= MAX_LONG ==> Decode("long", IntToString(n)) == Ok(LongValue(n))
  {
    assert AsciiUpper("true") == "TRUE";
    assert AsciiUpper("false") == "FALSE";
    if MIN_INT <= n <= MAX_INT {
      ParseIntegerOfToString(n, MIN_INT, MAX_INT);
    }
    if MIN_LONG <= n <= MAX_LONG {
      ParseIntegerOfToString(n, MIN_LONG, MAX_LONG);
    }
  }

  /**
   * decode and the error type accept more than Java prints: any case of
   * "true", a leading '+', leading zeros, and any case of a type name.
   */
  lemma LenientForms()
    ensures Decode("boolean", "TrUe") == Ok(BooleanValue(true))
    ensures Decode("boolean", "yes") == Ok(BooleanValue(false))
    ensures Decode("int", "+5") == Ok(IntValue(5))
    ensures Decode("long", "007") == Ok(LongValue(7))
    ensures Decode("int", "") == Err(NumberFormat(""))
    ensures ParseErrorType(Some("Wait")) == Wait
  {
    assert AllDigits("5") && DigitsValue("5") == 5;
    assert "+5"[1..] == "5";
    assert AllDigits("007") && DigitsValue("007") == 7 by {
      assert "007"[..2] == "00" && "00"[..1] == "0";
    }
    assert AsciiUpper("Wait") == ErrorTypeName(Wait);
  }

  // ---------------------------------------------------------------------
  // updateText
  // ---------------------------------------------------------------------

  /**
   * updateText: sets the text of the first child called `name`, adding that
   * child first when there is none (dom4j's addElement puts the new child in
   * the parent's default namespace). Nothing else in the parent changes.
   */
  function UpdateText(parent: Element, name: string, text: string): (r: Element)
    ensures r.name == parent.name && r.ns == parent.ns && r.attrs == parent.attrs && r.text == parent.text
    ensures ElementText(r, name) == Some(text)
    ensures forall n :: n != name ==> Child(r, n) == Child(parent, n)
    ensures Child(parent, name).Some? ==> |r.children| == |parent.children|
    ensures Child(parent, name).None? ==> r.children == parent.children + [Element(name, parent.ns, [], [], text)]
    ensures forall j :: 0 <= j < |parent.children| && FirstNamed(parent.children, name) != Some(j)
                        ==> r.children[j] == parent.children[j]
    ensures FirstNamed(parent.children, name).Some? ==>
              var i := FirstNamed(parent.children, name).value; r.children[i] == parent.children[i].(text := text)
  {
    var cs := parent.children;
    match FirstNamed(cs, name)
    case Some(i) =>
      RetextChildren(parent, name, text, i);
      parent.(children := cs[i := cs[i].(text := text)])
    case None =>
      AppendChildren(parent, name, text);
      parent.(children := cs + [Element(name, parent.ns, [], [], text)])
  }

  /** updateText when a child of that name exists: its text is set and every other name finds what it found. */
  lemma RetextChildren(parent: Element, name: string, text: string, i: nat)
    requires FirstNamed(parent.children, name) == Some(i)
    ensures var r := parent.(children := parent.children[i := parent.children[i].(text := text)]);
      && ElementText(r, name) == Some(text)
      && forall n :: n != name ==> Child(r, n) == Child(parent, n)
  {
    var cs := parent.children;
    var r := parent.(children := cs[i := cs[i].(text := text)]);
    RetextKeepsPositions(cs, i, text);
    assert Child(r, name) == Some(cs[i].(text := text));
    forall n | n != name
      ensures Child(r, n) == Child(parent, n)
    {
      assert FirstNamed(r.children, n) == FirstNamed(cs, n);
    }
  }

  /** updateText when no child of that name exists: the new child is found by its name, and nothing else moves. */
  lemma AppendChildren(parent: Element, name: string, text: string)
    requires FirstNamed(parent.children, name).None?
    ensures var r := parent.(children := parent.children + [Element(name, parent.ns, [], [], text)]);
      && ElementText(r, name) == Some(text)
      && forall n :: n != name ==> Child(r, n) == Child(parent, n)
  {
    var cs := parent.children;
    var e := Element(name, parent.ns, [], [], text);
    var r := parent.(children := cs + [e]);
    AppendKeepsPositions(cs, e);
    assert Child(r, name) == Some(e);
    forall n | n != name
      ensures Child(r, n) == Child(parent, n)
    {
      assert FirstNamed(r.children, n) == FirstNamed(cs, n);
      if FirstNamed(cs, n).Some? {
        assert r.children[FirstNamed(cs, n).value] == cs[FirstNamed(cs, n).value];
      }
    }
  }

  /** Changing one child's text moves no child: every name is first found where it was. */
  lemma RetextKeepsPositions(cs: seq<Element>, i: nat, text: string)
    requires i < |cs|
    ensures forall n :: FirstNamed(cs[i := cs[i].(text := text)], n) == FirstNamed(cs, n)
  {
    forall n
      ensures FirstNamed(cs[i := cs[i].(text := text)], n) == FirstNamed(cs, n)
    {
      FirstNamedByNames(cs, cs[i := cs[i].(text := text)], n);
    }
  }

  /** Appending a child of a name not yet present makes it the first of that name and moves nothing else. */
  lemma AppendKeepsPositions(cs: seq<Element>, e: Element)
    requires FirstNamed(cs, e.name).None?
    ensures FirstNamed(cs + [e], e.name) == Some(|cs|)
    ensures forall n :: n != e.name ==> FirstNamed(cs + [e], n) == FirstNamed(cs, n)
  {
    FirstNamedAppend(cs, e, e.name);
    forall n | n != e.name
      ensures FirstNamed(cs + [e], n) == FirstNamed(cs, n)
    {
      FirstNamedAppend(cs, e, n);
    }
  }

  /** The first child of a name after appending `e`: the old one if there was one, else `e` when it has that name. */
  lemma {:induction false} FirstNamedAppend(cs: seq<Element>, e: Element, n: string)
    ensures FirstNamed(cs + [e], n) ==
      if FirstNamed(cs, n).Some? then FirstNamed(cs, n) else if e.name == n then Some(|cs|) else None
    decreases |cs|
  {
    if |cs| > 0 {
      assert (cs + [e])[1..] == cs[1..] + [e];
      FirstNamedAppend(cs[1..], e, n);
    }
  }

  /** The position of the first child of a name depends only on the children's names. */
  lemma FirstNamedByNames(cs: seq<Element>, ds: seq<Element>, n: string)
    requires |cs| == |ds| && forall i :: 0 <= i < |cs| ==> cs[i].name == ds[i].name
    ensures FirstNamed(cs, n) == FirstNamed(ds, n)
  {
    if FirstNamed(cs, n).Some? && FirstNamed(ds, n).Some? {
      var a, b := FirstNamed(cs, n).value, FirstNamed(ds, n).value;
      assert !(a < b) && !(b < a);
    }
  }

  /** updateText is idempotent. */
  lemma UpdateTextIdempotent(parent: Element, name: string, text: string)
    ensures UpdateText(UpdateText(parent, name, text), name, text) == UpdateText(parent, name, text)
  {
    var once := UpdateText(parent, name, text);
    var i := FirstNamed(once.children, name).value;
    assert once.children[i := once.children[i].(text := text)] == once.children;
  }
}
