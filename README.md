# jamppa XMPP core, modelled in Dafny

This project models the protocol core of jamppa, a Java XMPP client and
component library built on a fork of Smack and on Tinder/dom4j. The model
covers:

- **Reading the stream.** `PacketReader` is modelled in module `PacketReader`.
  - It reads the stream header and takes the connection id and the service name from it.
  - It dispatches each top-level element: message, presence, iq, stream error, features, proceed, failure, challenge, success, compressed.
  - It classifies IQs: ping, bind, roster, authentication, registration.
  - It handles stream features (section 4.3 of RFC 6120, STARTTLS policy), failures, shutdown and the read loop.
- **Parsing utilities.** The parsing helpers of `PacketParserUtils` (module `PacketParserUtils`):
  - SASL mechanisms and compression methods;
  - stream errors (section 4.9 of RFC 6120) and stanza errors (section 8.3 of RFC 6120);
  - packet extensions;
  - `decode`;
  - `updateText`, the primitive every payload setter uses.
- **IQ payloads.** The classes `Registration`, `Authentication`, `Bind` and `Ping` are classes over an immutable element value. Each keeps the position of its payload child and reassigns its element on every setter, as dom4j's in-place update does.
- **SASL.** The framing and the exchange of `SASLMechanism` (module `Sasl`).
- **Configuration.** `SmackConfiguration`'s reply timeout and its list of default SASL mechanisms (module `Configuration`).
- **Roster entries.** `RosterEntry`: its equality, hash, `toString` and the roster pushes `setName` sends (module `RosterEntries`).
- **Roster store.** `DefaultRosterStore`, the on-disk roster cache: a version file plus one file per entry (module `RosterStore`, with `FileWrites` for the bookkeeping of loops that write files).
- **In-band registration.** The XEP-0077 plugin: discovery, account creation, password change and deletion (module `InBandRegistration`).
- **Component.** `XMPPComponent`: the query-handler tables, callback registration and the synchronous send (module `Component`).

Shared vocabulary:
- `Xml` holds elements, attributes and a pull parser over a fixed event stream.
- `IqStanzas` holds the IQ header setters and the payload text accessors.
- `Jids` holds bare JIDs.
- `RosterItems` holds the subscription and ask enumerations.
- `Wrappers` holds `Option`, `Result` and `Outcome`.

Conventions:
- **Java exceptions** are `Err`/`Fail` values naming the exception. A Java `null` result is `None`.
- **Calls into code outside the model** (the connection, `SASLAuthentication`, listeners, `send`) are appended to an event log held by the calling object. The effect of an operation is a statement about that log.
- **Foreign functions** are function-typed parameters. These include `SaslClient`, Base64, Base32, SHA-1, `StringUtils.xmlAttrib` and MXParser over a file's text.
- **A synchronous reply** (`SyncPacketSend.getReply`, the 5-second poll of `syncSendPacket`) is an `Option` parameter: `None` when no reply arrives in time.
- **The file system** is a `Directory` class whose `files` map the methods update. A write or a delete may fail.

Where the code and the documented intent disagree because of a defect (see "## Findings"), the model has both halves: a member for the code as written and a member for the evident intent.
- `PacketReader` takes a `Reading`, `AsWritten` or `AsIntended`, for its namespace checks (parseIQ, parseFeatures, parseFailure, parseStreamError). The functions `Dispatch` and `Run` and the `PacketReader` class run the program either way; lemmas such as `PingThroughReader` contrast the two end to end.
- In the roster store, `DecodeEntryAsWritten` is `readEntry` as written. The stateful methods run the corrected reading; see "## Left out".
- The caps node as written (`CapsNodeAsWritten`) is never reached, because as written no `c` feature is ever recognised.
- `XmppComponent` has both `SyncSendPacketAsWritten` and `SyncSendPacket`.

Elsewhere the model follows the code. One such point: `DefaultRosterStore.init` does not refuse a directory that already holds a store. It overwrites the version file and keeps the entries, and `RosterStore.Init` models exactly that.

## Model

| member | source | states |
|---|---|---|
| Jids.ToBareJid | src/main/java/org/jamppa/component/XMPPComponent.java:226-227 | The bare JID is `node@domain`, or just the domain when there is no node; the resource never appears. |
| RosterItems.SubscriptionOf | src/main/java/org/jivesoftware/smack/DefaultRosterStore.java:253-259 | `Subscription.valueOf` returns exactly the constant whose name is the text, and fails (IllegalArgumentException) iff no constant has that name. |
| RosterItems.AskOf | src/main/java/org/jivesoftware/smack/DefaultRosterStore.java:261-262 | `Ask.valueOf` returns exactly the constant whose name is the text, and fails iff there is none. |
| RosterItems.NamesRoundTrip | src/main/java/org/jivesoftware/smack/DefaultRosterStore.java:285-291 | The subscription and ask names `addEntryRaw` writes are read back by `valueOf` as the same constants. |
| Xml.AttrValue | src/main/java/org/jivesoftware/smack/PacketReader.java:358-359 | `attributeValue(key)` is absent iff no attribute has that key; otherwise it is the value of an attribute with that key. |
| Xml.SetAttr | src/main/java/org/jivesoftware/smack/ping/packet/Ping.java:33-34 | Setting an attribute makes it read back the new value; every other key reads as before. |
| Xml.FirstNamed | src/main/java/org/jivesoftware/smack/PacketReader.java:273 | The position `element(name)` finds: the first child with that name, with none before it; absent iff no child has the name. |
| Xml.Child | src/main/java/org/jivesoftware/smack/PacketReader.java:283 | `element(name)` is a child with that name, and is null iff no child has it. |
| Xml.ElementText | src/main/java/org/jivesoftware/smack/packet/Bind.java:54-56 | `elementText(name)` is null iff there is no such child, and otherwise that child's text. |
| Xml.ChildrenNamed | src/main/java/org/jivesoftware/smack/util/PacketParserUtils.java:85 | `elements(name)` holds exactly the children with that name, none for no children. |
| Xml.ChildrenNamedAppend | src/main/java/org/jivesoftware/smack/util/PacketParserUtils.java:85 | Appending a child extends `elements(name)` by that child exactly when it has the name, so the list keeps document order and one entry per matching child. |
| Xml.FirstChild | src/main/java/org/jivesoftware/smack/util/PacketParserUtils.java:68 | `elements().iterator().next()` exists iff there is a child, and it is the first one. |
| Xml.NamespaceNeverEqualsString | src/main/java/org/jivesoftware/smack/PacketReader.java:274 | `Namespace.equals(String)` and `String.equals(Namespace)` are false for every URI and string. |
| Xml.NextTextOf | src/main/java/org/jivesoftware/smack/util/PacketParserUtils.java:143 | `nextText` on an END_TAG returns "" and consumes it. On TEXT then END_TAG it returns the text and consumes both. It fails on a START_TAG, on TEXT followed by anything else, and at the end of input. |
| Xml.PullParser.constructor | src/main/java/org/jivesoftware/smack/util/PacketParserUtils.java:120 | The parser stands at the given position of the given event stream. |
| Xml.PullParser.Next | src/main/java/org/jivesoftware/smack/util/PacketParserUtils.java:140 | `next` returns the next event and advances by one; at the end of input it fails and does not move. |
| Xml.PullParser.NextText | src/main/java/org/jivesoftware/smack/util/PacketParserUtils.java:143 | The method agrees with `NextTextOf` on both the result and where the parser is left. |
| IqStanzas.NewIq | src/main/java/org/jivesoftware/smack/packet/Registration.java:56-58 | `new IQ()` is an `iq` of type get with the generated id and no payload. |
| IqStanzas.WithType | src/main/java/org/jivesoftware/smack/packet/Authentication.java:44 | `setType` changes only the `type` attribute; the element is otherwise unchanged. |
| IqStanzas.WithTo | src/main/java/org/jivesoftware/smack/ping/packet/Ping.java:33 | `setTo` changes only the `to` attribute. |
| IqStanzas.PayloadText | src/main/java/org/jivesoftware/smack/packet/Bind.java:54-64 | A getter on the payload fails (NullPointerException) iff the payload child is missing; otherwise it is `elementText` of the payload. |
| IqStanzas.UpdatePayloadText | src/main/java/org/jivesoftware/smack/packet/Bind.java:58-68 | A setter fails iff the payload is missing. Otherwise the field reads back the value, every other field of the payload reads as before, and no other child of the IQ changes. |
| IqStanzas.UpdatePayloadIdempotent | src/main/java/org/jivesoftware/smack/util/PacketParserUtils.java:284-290 | Setting the same field to the same text twice is the same as setting it once. |
| PacketParserUtils.ChildTextsOf | src/main/java/org/jivesoftware/smack/util/PacketParserUtils.java:84-91 | The texts of the children with a given name, one per child, in document order. |
| PacketParserUtils.ChildTexts | src/main/java/org/jivesoftware/smack/util/PacketParserUtils.java:101-109 | The shared loop returns exactly `ChildTextsOf`. |
| PacketParserUtils.ParseMechanisms | src/main/java/org/jivesoftware/smack/util/PacketParserUtils.java:84-91 | The mechanisms are the texts of the `mechanism` children, in order. |
| PacketParserUtils.ParseCompressionMethods | src/main/java/org/jivesoftware/smack/util/PacketParserUtils.java:101-109 | The methods are the texts of the `method` children, in order. |
| PacketParserUtils.ParseStreamErrorAsWritten | src/main/java/org/jivesoftware/smack/util/PacketParserUtils.java:65-74 | As written: fails iff the error has no child. The code is always null, because of the namespace comparison, and the text is read from inside the condition element. |
| PacketParserUtils.ParseStreamError | src/main/java/org/jivesoftware/smack/util/PacketParserUtils.java:65-74 | As intended: fails iff there is no child. The code is the condition's name iff the condition is in the streams namespace. The text is the `text` child of the error itself. |
| PacketParserUtils.StreamErrorAsWrittenLosesConflict | src/main/java/org/jivesoftware/smack/util/PacketParserUtils.java:69-72 | For a `conflict` error with text t, the code as written yields (null, null); the intended reading yields ("conflict", t). |
| PacketParserUtils.ParseInteger | src/main/java/org/jivesoftware/smack/util/PacketParserUtils.java:172 | `Integer.parseInt`: ASCII digits, optionally after one `+` or `-`, give their value (negated after `-`) when it is in range and fail otherwise; any other input fails. |
| PacketParserUtils.NatToString | src/main/java/org/jivesoftware/smack/util/PacketParserUtils.java:172 | The decimal form of a natural number is a non-empty string of digits. |
| PacketParserUtils.IntToString | src/main/java/org/jivesoftware/smack/util/PacketParserUtils.java:266-267 | The printed form `Integer.valueOf` reads back: a minus sign iff the number is negative, then digits denoting its magnitude. |
| PacketParserUtils.DigitsOfNatToString | src/main/java/org/jivesoftware/smack/util/PacketParserUtils.java:172 | The digits printed for n denote n. |
| PacketParserUtils.ParseIntegerOfToString | src/main/java/org/jivesoftware/smack/util/PacketParserUtils.java:172 | Every int in range, negative ones included, is parsed back from its printed form. |
| PacketParserUtils.DefaultCodeParses | src/main/java/org/jivesoftware/smack/util/PacketParserUtils.java:122 | The default error code "-1" parses to -1. |
| PacketParserUtils.AsciiUpper | src/main/java/org/jivesoftware/smack/util/PacketParserUtils.java:166 | `toUpperCase` on ASCII: each of 'a' to 'z' becomes its capital, 32 code points lower, and every other character is left as it is, one for one. |
| PacketParserUtils.ErrorTypeValueOf | src/main/java/org/jivesoftware/smack/util/PacketParserUtils.java:166 | `XMPPError.Type.valueOf` returns the constant whose name is exactly the text, and fails iff no constant has that name. |
| PacketParserUtils.ParseErrorType | src/main/java/org/jivesoftware/smack/util/PacketParserUtils.java:163-171 | A missing type, or one that upper-cases to no known type, gives CANCEL. A type that upper-cases to a constant's name gives that constant, so "Wait" and "WAIT" give WAIT. |
| PacketParserUtils.ErrorTypeRoundTrip | src/main/java/org/jivesoftware/smack/util/PacketParserUtils.java:163-171 | Every error type is read back from its wire name. |
| PacketParserUtils.ExtensionLoop | src/main/java/org/jivesoftware/smack/util/PacketParserUtils.java:190-218 | The loop of `parsePacketExtension` always consumes events and leaves a suffix of its input. It fails only at the end of input. |
| PacketParserUtils.ParsePacketExtension | src/main/java/org/jivesoftware/smack/util/PacketParserUtils.java:190-218 | The method agrees with `ExtensionLoop` on the extension and on where the parser is left. |
| PacketParserUtils.ExtensionLoopReadsFields | src/main/java/org/jivesoftware/smack/util/PacketParserUtils.java:195-216 | Fields written as `<name>value</name>` or `<name/>`, then the closing tag, are read into the map, later fields winning. The parser stops right after the closing tag. |
| PacketParserUtils.FieldStep | src/main/java/org/jivesoftware/smack/util/PacketParserUtils.java:197-210 | One field stores its value under its name, then the loop goes on with the rest. |
| PacketParserUtils.ErrorLoop | src/main/java/org/jivesoftware/smack/util/PacketParserUtils.java:139-161 | The loop of `parseError` consumes events, leaves a suffix, and fails only if the parser does. |
| PacketParserUtils.ErrorOf | src/main/java/org/jivesoftware/smack/util/PacketParserUtils.java:120-174 | A missing code gives -1 and a missing type gives CANCEL; any code accepted lies in the int range. |
| PacketParserUtils.ParseError | src/main/java/org/jivesoftware/smack/util/PacketParserUtils.java:120-174 | The method agrees with `ErrorOf` on the error and on where the parser is left. |
| PacketParserUtils.ErrorLoopReadsCondition | src/main/java/org/jivesoftware/smack/util/PacketParserUtils.java:147-150 | A child in the stanzas namespace becomes the condition. |
| PacketParserUtils.ErrorLoopReadsText | src/main/java/org/jivesoftware/smack/util/PacketParserUtils.java:142-143 | A `text` child becomes the message. |
| PacketParserUtils.ErrorLoopReadsExtension | src/main/java/org/jivesoftware/smack/util/PacketParserUtils.java:151-153 | Any other child is appended as a packet extension with its fields. |
| PacketParserUtils.ErrorLoopReadsChildren | src/main/java/org/jivesoftware/smack/util/PacketParserUtils.java:139-161 | Readable children up to `</error>` are all absorbed in order, and the parser stops right after `</error>`. |
| PacketParserUtils.ParseErrorReadsBack | src/main/java/org/jivesoftware/smack/util/PacketParserUtils.java:120-174 | An error written with a code, a type and children reads back: the code, the type, the last condition, the last text, and every extension in order. |
| PacketParserUtils.Decode | src/main/java/org/jivesoftware/smack/util/PacketParserUtils.java:259-282 | A String stays as it is. A boolean is true iff the text is "true" ignoring case. An int or long decodes iff `ParseInteger` accepts it in the type's range, to that value, and otherwise fails with a NumberFormatException for the text. Unknown types decode to null. |
| PacketParserUtils.AsciiUpperIsTrue | src/main/java/org/jivesoftware/smack/util/PacketParserUtils.java:264 | Upper-casing gives "TRUE" exactly when the text is "true" in any mixture of cases. |
| PacketParserUtils.LenientForms | src/main/java/org/jivesoftware/smack/util/PacketParserUtils.java:259-270 | decode reads "TrUe" as true, "yes" as false, "+5" as 5 and "007" as 7, rejects "" as an int, and the type "Wait" is WAIT. |
| PacketParserUtils.DecodeReadsPrinted | src/main/java/org/jivesoftware/smack/util/PacketParserUtils.java:263-270 | Decoding what Java prints for a boolean, int or long gives back the value. |
| PacketParserUtils.UpdateText | src/main/java/org/jivesoftware/smack/util/PacketParserUtils.java:284-290 | Afterwards the named field reads the new text and every other name finds the same child as before. The first child of that name is retexted, or a new child is appended when there is none; nothing else moves. |
| PacketParserUtils.RetextChildren | src/main/java/org/jivesoftware/smack/util/PacketParserUtils.java:285-289 | Retexting the first child of a name: it reads the new text, and every other name is found where it was. |
| PacketParserUtils.AppendChildren | src/main/java/org/jivesoftware/smack/util/PacketParserUtils.java:286-289 | Appending a child with a new name: it reads the text, and every other name is found where it was. |
| PacketParserUtils.RetextKeepsPositions | src/main/java/org/jivesoftware/smack/util/PacketParserUtils.java:289 | Changing a child's text moves no child for any name. |
| PacketParserUtils.AppendKeepsPositions | src/main/java/org/jivesoftware/smack/util/PacketParserUtils.java:287 | The appended child is the first of its name, and the positions found for other names do not change. |
| PacketParserUtils.FirstNamedAppend | src/main/java/org/jivesoftware/smack/util/PacketParserUtils.java:287 | After an append, the first child of a name is the old one if there was one, else the new one if it has that name. |
| PacketParserUtils.FirstNamedByNames | src/main/java/org/jivesoftware/smack/util/PacketParserUtils.java:285 | `element(name)` depends only on the sequence of child names. |
| PacketParserUtils.UpdateTextIdempotent | src/main/java/org/jivesoftware/smack/util/PacketParserUtils.java:284-290 | `updateText` twice with the same arguments equals once. |
| Registration.NewRegistration | src/main/java/org/jivesoftware/smack/packet/Registration.java:56-59 | `new Registration()` is an IQ of type get whose only child is an empty `query` in `jabber:iq:register`. |
| Registration.RegistrationIsReadAsRegistration | src/main/java/org/jivesoftware/smack/PacketReader.java:291-293 | The reader classifies what `new Registration()` builds as a registration. |
| Registration.Registration.constructor | src/main/java/org/jivesoftware/smack/packet/Registration.java:56-59 | The element is `NewRegistration` and the payload is its first child. |
| Registration.Registration.Wrap | src/main/java/org/jivesoftware/smack/packet/Registration.java:61-64 | Wrapping keeps the element and takes its first `query` child, possibly none, as the payload. |
| Registration.AttributesOf | src/main/java/org/jivesoftware/smack/packet/Registration.java:92-104 | `getAttributes` is null iff every child is `instructions`, and `instructions` is never a key. |
| Registration.AttributesOfKeys | src/main/java/org/jivesoftware/smack/packet/Registration.java:95-100 | The keys are exactly the names of the children other than `instructions`. |
| Registration.AttributesOfLastWins | src/main/java/org/jivesoftware/smack/packet/Registration.java:100 | A name maps to the text of the last child of that name. |
| Registration.Overlay | src/main/java/org/jivesoftware/smack/packet/Registration.java:111-115 | Writing map m over attributes a: each key of m reads its value, and other keys read what a had. The result is null only when both are empty. |
| Registration.AttributesIgnoreInstructions | src/main/java/org/jivesoftware/smack/packet/Registration.java:82-84 | Changing the `instructions` text never changes the attributes. |
| Registration.Registration.SetInstructions | src/main/java/org/jivesoftware/smack/packet/Registration.java:82-84 | Fails iff there is no query. Otherwise the instructions read back and the attributes are unchanged. |
| Registration.Registration.GetInstructions | src/main/java/org/jivesoftware/smack/packet/Registration.java:73-75 | `getInstructions` fails iff there is no query; otherwise it is the text of its `instructions` child, null without one. |
| Registration.Registration.GetAttributes | src/main/java/org/jivesoftware/smack/packet/Registration.java:92-104 | Fails iff there is no query; otherwise the result is `AttributesOf` the query's children. |
| Registration.AttributesOfReplace | src/main/java/org/jivesoftware/smack/packet/Registration.java:111-115 | With unique names, retexting one child changes exactly that attribute. |
| Registration.AttributesAfterUpdate | src/main/java/org/jivesoftware/smack/packet/Registration.java:113 | One `updateText` overwrites exactly that attribute, unless the name is `instructions`, and keeps the names unique. |
| Registration.AttributesAfterAppend | src/main/java/org/jivesoftware/smack/packet/Registration.java:113 | Appending a child sets its attribute, unless it is `instructions`. |
| Registration.OverlayCommutes | src/main/java/org/jivesoftware/smack/packet/Registration.java:112 | Two different keys written in either order give the same map. |
| Registration.WriteAll | src/main/java/org/jivesoftware/smack/packet/Registration.java:112-114 | Writing the entries in a given key order keeps the query's name. |
| Registration.WriteAllTexts | src/main/java/org/jivesoftware/smack/packet/Registration.java:112-114 | In any key order, the written entries read back and other names find their old children. |
| Registration.WriteAllAttributes | src/main/java/org/jivesoftware/smack/packet/Registration.java:112-114 | In any key order, with unique names, the attributes become the old ones overwritten by the entries, less `instructions`. |
| Registration.WriteAttributes | src/main/java/org/jivesoftware/smack/packet/Registration.java:111-115 | The loop over the map writes the whole map. Every entry reads back, other names are untouched, and the attributes are the old ones overwritten. |
| Registration.WriteEach | src/main/java/org/jivesoftware/smack/packet/Registration.java:112-114 | The loop writes in some order that lists every key of the map and nothing else, and its result is `WriteAll` in that order. |
| Registration.WrittenInAnyOrder | src/main/java/org/jivesoftware/smack/packet/Registration.java:111-115 | Any order that lists every key gives the same reading of texts and attributes. |
| Registration.Registration.SetAttributes | src/main/java/org/jivesoftware/smack/packet/Registration.java:111-115 | Fails (NullPointerException) iff there is no query and the map is non-empty. Otherwise only the query changes, and every entry reads back while other names are untouched. With unique names, the attributes become the old ones overwritten. |
| Authentication.NewAuthentication | src/main/java/org/jivesoftware/smack/packet/Authentication.java:42-50 | `new Authentication()` is an IQ of type set whose only child is the query with four empty fields. |
| Authentication.EmptyQueryFields | src/main/java/org/jivesoftware/smack/packet/Authentication.java:46-49 | `username`, `digest`, `password` and `resource` each read the empty text. |
| Authentication.AuthenticationIsReadAsAuthentication | src/main/java/org/jivesoftware/smack/PacketReader.java:288-290 | The reader classifies it as an authentication. |
| Authentication.Authentication.constructor | src/main/java/org/jivesoftware/smack/packet/Authentication.java:42-50 | The element is `NewAuthentication` and the payload is its first child. |
| Authentication.Authentication.Wrap | src/main/java/org/jivesoftware/smack/packet/Authentication.java:52-55 | Wrapping keeps the element and takes its first `query` child as the payload. |
| Authentication.Authentication.SetField | src/main/java/org/jivesoftware/smack/packet/Authentication.java:72-74 | Fails iff there is no query; otherwise it is `updateText` on the payload. |
| Authentication.Authentication.SetUsername | src/main/java/org/jivesoftware/smack/packet/Authentication.java:72-74 | Fails iff there is no query. Otherwise the element becomes `updateText` of `username` on the query, the username reads back and the other three fields keep their values. |
| Authentication.Authentication.SetPassword | src/main/java/org/jivesoftware/smack/packet/Authentication.java:92-94 | The same for the password, as `updateText` on the query. |
| Authentication.Authentication.SetDigest | src/main/java/org/jivesoftware/smack/packet/Authentication.java:140-142 | The same for the digest. |
| Authentication.Authentication.SetDigestFor | src/main/java/org/jivesoftware/smack/packet/Authentication.java:124-126 | The digest becomes the hash of connection id + password. |
| Authentication.Authentication.SetResource | src/main/java/org/jivesoftware/smack/packet/Authentication.java:159-161 | The same for the resource, as `updateText` on the query. |
| Authentication.Authentication.GetUsername | src/main/java/org/jivesoftware/smack/packet/Authentication.java:62-64 | `getUsername` fails (null query) iff there is no query; otherwise it is the text of the query's `username` child, null without one. |
| Authentication.Authentication.GetPassword | src/main/java/org/jivesoftware/smack/packet/Authentication.java:82-84 | The same for `password`. |
| Authentication.Authentication.GetDigest | src/main/java/org/jivesoftware/smack/packet/Authentication.java:106-108 | The same for `digest`. |
| Authentication.Authentication.GetResource | src/main/java/org/jivesoftware/smack/packet/Authentication.java:149-151 | The same for `resource`. |
| Bind.NewBind | src/main/java/org/jivesoftware/smack/packet/Bind.java:48-52 | `new Bind()` is an IQ of type set whose only child is an empty `bind` in the bind namespace. |
| Bind.BindIsReadAsBind | src/main/java/org/jivesoftware/smack/PacketReader.java:278-281 | The reader, as intended, classifies it as a bind. |
| Bind.Bind.Wrap | src/main/java/org/jivesoftware/smack/packet/Bind.java:43-46 | Wrapping keeps the element and takes its first `bind` child as the payload. |
| Bind.Bind.constructor | src/main/java/org/jivesoftware/smack/packet/Bind.java:48-52 | The element is `NewBind` and the payload is its first child. |
| Bind.Bind.SetResource | src/main/java/org/jivesoftware/smack/packet/Bind.java:58-60 | Fails iff there is no payload. Otherwise the resource reads back and the jid is unchanged. |
| Bind.Bind.SetJid | src/main/java/org/jivesoftware/smack/packet/Bind.java:66-68 | Fails iff there is no payload. Otherwise the jid reads back and the resource is unchanged. |
| Bind.Bind.GetResource | src/main/java/org/jivesoftware/smack/packet/Bind.java:54-56 | `getResource` fails iff there is no `bind` payload; otherwise it is the text of its `resource` child, null without one. |
| Bind.Bind.GetJid | src/main/java/org/jivesoftware/smack/packet/Bind.java:62-64 | The same for `jid`. |
| Ping.NewPing | src/main/java/org/jivesoftware/smack/ping/packet/Ping.java:27-29 | `new Ping()` is an IQ whose `ping` child is the empty element in `urn:xmpp:ping`. |
| Ping.NewPingTo | src/main/java/org/jivesoftware/smack/ping/packet/Ping.java:31-35 | `new Ping(to)` has the same children, addressed to `to`, of type get. |
| Ping.PingIsReadAsPing | src/main/java/org/jivesoftware/smack/PacketReader.java:273-276 | The reader, as intended, classifies both as a ping. |
| Ping.Ping.constructor | src/main/java/org/jivesoftware/smack/ping/packet/Ping.java:27-29 | The element is `NewPing`. |
| Ping.Ping.To | src/main/java/org/jivesoftware/smack/ping/packet/Ping.java:31-35 | The element is `NewPingTo`. |
| Ping.Ping.Wrap | src/main/java/org/jivesoftware/smack/ping/packet/Ping.java:37-39 | The element is wrapped unchanged. |
| PacketReader.Offered | src/main/java/org/jivesoftware/smack/PacketReader.java:335-337 | As written no feature is ever offered. As intended, a feature is offered iff its first child of that name is in the feature's namespace, and it is that child. |
| PacketReader.QueryKind | src/main/java/org/jivesoftware/smack/PacketReader.java:283-296 | Roster, authentication or registration iff the `query` child is in that namespace; never ping or bind. |
| PacketReader.ParseIq | src/main/java/org/jivesoftware/smack/PacketReader.java:272-297 | As intended: ping iff a `ping` child is in the ping namespace; otherwise bind iff a `bind` child is in the bind namespace; otherwise the query's classification. |
| PacketReader.ParseIqAsWritten | src/main/java/org/jivesoftware/smack/PacketReader.java:272-297 | As written: only the query decides, and it never yields ping or bind. |
| PacketReader.PingReadAsPlainIq | src/main/java/org/jivesoftware/smack/PacketReader.java:273-275 | A ping request is a plain IQ as written and a Ping as intended. |
| PacketReader.HeaderAttrsFrame | src/main/java/org/jivesoftware/smack/PacketReader.java:181-191 | The header attributes change only the connection id, and only append to the log. |
| PacketReader.HeaderAttrsConnectionId | src/main/java/org/jivesoftware/smack/PacketReader.java:182-183 | The connection id is set iff there is an `id` attribute, and then to the value of one. |
| PacketReader.HeaderAttrsLog | src/main/java/org/jivesoftware/smack/PacketReader.java:184-189 | The lock is released iff there is an `id` and the version is not "1.0". A service name is logged for exactly each `from`. |
| PacketReader.HeaderAttrsEffects | src/main/java/org/jivesoftware/smack/PacketReader.java:179-193 | All three of the above together. |
| PacketReader.StreamStartEffects | src/main/java/org/jivesoftware/smack/PacketReader.java:179-193 | On a `jabber:client` stream the header has those effects; on any other stream nothing changes. |
| PacketReader.HeaderAttrs | src/main/java/org/jivesoftware/smack/PacketReader.java:181-191 | The header attributes change only the connection id and the log, and a header with neither `id` nor `from` changes nothing. |
| PacketReader.StreamStart | src/main/java/org/jivesoftware/smack/PacketReader.java:179-193 | `parseStreamStart` does nothing on a stream whose default namespace is not `jabber:client`, and never touches `done`, the headers or the documents. |
| PacketReader.Reset | src/main/java/org/jivesoftware/smack/PacketReader.java:164-177 | Resetting reads the next header. It never changes `done`, the documents still to read, or the executor state. |
| PacketReader.PacketReader.ResetParser | src/main/java/org/jivesoftware/smack/PacketReader.java:164-177 | The state becomes `Reset` of the old state. |
| PacketReader.PacketReader.ParseStreamStart | src/main/java/org/jivesoftware/smack/PacketReader.java:179-193 | The state becomes `StreamStart` of the old state. |
| PacketReader.PacketReader.constructor | src/main/java/org/jivesoftware/smack/PacketReader.java:69-72 | A new reader, with the given reading of the namespace checks, runs `init`: not done, no connection id, and the stream opened. |
| PacketReader.PacketReader.Init | src/main/java/org/jivesoftware/smack/PacketReader.java:78-103 | `init` clears `done` and the connection id, makes a new executor, and resets the parser. |
| PacketReader.CapsNode | src/main/java/org/jivesoftware/smack/PacketReader.java:355-364 | As intended, the caps node is `node#ver` of the `c` element, present iff both attributes are. |
| PacketReader.CapsNodeReadFromWrongElement | src/main/java/org/jivesoftware/smack/PacketReader.java:358-359 | For a typical `c` element the node is lost as written and is `node#ver` as intended. |
| PacketReader.CapsNodeAsWritten | src/main/java/org/jivesoftware/smack/PacketReader.java:358-359 | As written the caps node is `node#ver` of the `features` element itself, present iff it has both attributes; the `c` element is never consulted. |
| PacketReader.IfOffered | src/main/java/org/jivesoftware/smack/PacketReader.java:349-353 | At most one call per feature, and none as written. |
| PacketReader.StartTlsEvents | src/main/java/org/jivesoftware/smack/PacketReader.java:335-340 | `startTLSReceived(required)` iff `starttls` is offered, with `required` iff it has a `required` child. |
| PacketReader.MechanismEvents | src/main/java/org/jivesoftware/smack/PacketReader.java:342-347 | Only SASL method calls, and none as written. |
| PacketReader.CapsEvents | src/main/java/org/jivesoftware/smack/PacketReader.java:355-364 | Only caps-node calls, and none as written. |
| PacketReader.CompressionEvents | src/main/java/org/jivesoftware/smack/PacketReader.java:378-383 | Only compression calls, and none as written. |
| PacketReader.LaterFeatureEvents | src/main/java/org/jivesoftware/smack/PacketReader.java:342-389 | The feature calls after `starttls` are feature calls other than STARTTLS, and there are none as written. |
| PacketReader.FeatureEvents | src/main/java/org/jivesoftware/smack/PacketReader.java:333-389 | Only feature calls, with the STARTTLS call as in `StartTlsEvents`; none as written. |
| PacketReader.FeaturesPolicy | src/main/java/org/jivesoftware/smack/PacketReader.java:391-404 | Refuses (forbidden) iff the connection is insecure, STARTTLS was not offered and security is required. Otherwise the lock is released iff STARTTLS was not offered or security is disabled. |
| PacketReader.FeaturesOutcome | src/main/java/org/jivesoftware/smack/PacketReader.java:333-405 | `parseFeatures` as intended: refuses iff insecure, no `starttls` in the TLS namespace and security required. Otherwise it releases the lock iff no STARTTLS or security is disabled, and reports STARTTLS exactly as offered. |
| PacketReader.FeaturesStep | src/main/java/org/jivesoftware/smack/PacketReader.java:333-405 | The loop stops with `forbidden` iff the connection, asked after the feature calls, is insecure, no STARTTLS was read and security is required; otherwise the feature calls are logged, then the lock release iff no STARTTLS or security disabled. |
| PacketReader.ParseFeaturesAsWritten | src/main/java/org/jivesoftware/smack/PacketReader.java:333-405 | As written: an insecure connection with security required is always refused, and otherwise the lock is always released, whatever is offered. |
| PacketReader.StartTlsOfferIgnored | src/main/java/org/jivesoftware/smack/PacketReader.java:391-398 | A server offering required STARTTLS is refused as written, and is answered with STARTTLS and its mechanisms as intended. |
| PacketReader.TlsRequiredFeatureEvents | src/main/java/org/jivesoftware/smack/PacketReader.java:335-347 | Those features yield `startTLSReceived(true)` and then PLAIN. |
| PacketReader.TlsRequiredStartTls | src/main/java/org/jivesoftware/smack/PacketReader.java:335-340 | The `starttls` offer is found and is reported as required. |
| PacketReader.TlsRequiredLaterFeatures | src/main/java/org/jivesoftware/smack/PacketReader.java:342-347 | The later features yield only the mechanism list. |
| PacketReader.OnlyMechanismsLater | src/main/java/org/jivesoftware/smack/PacketReader.java:342-389 | Features offering only `starttls` and `mechanisms` lead to no later call except SASL's. |
| PacketReader.NotOffered | src/main/java/org/jivesoftware/smack/PacketReader.java:349-389 | A name carried by no child is not offered. |
| PacketReader.PacketReader.ParseFeatures | src/main/java/org/jivesoftware/smack/PacketReader.java:333-405 | The method's error and new state are `FeaturesStep` under the reader's reading of the namespace checks. |
| PacketReader.RouteFailure | src/main/java/org/jivesoftware/smack/PacketReader.java:260-270 | As intended: TLS iff the TLS namespace, compression iff the compression namespace, SASL otherwise. |
| PacketReader.RouteFailureAsWritten | src/main/java/org/jivesoftware/smack/PacketReader.java:261-263 | As written: every failure is taken for a SASL failure. |
| PacketReader.TlsFailureTakenForSasl | src/main/java/org/jivesoftware/smack/PacketReader.java:261-268 | A TLS failure is SASL as written and TLS as intended. |
| PacketReader.FailureStep | src/main/java/org/jivesoftware/smack/PacketReader.java:260-270 | The loop stops (TLS negotiation failed) iff the failure is read as in the TLS namespace, which never happens as written. As intended a compression failure reports the denial; every other failure is delivered and passed to SASL with its condition. |
| PacketReader.PacketReader.ParseFailure | src/main/java/org/jivesoftware/smack/PacketReader.java:260-270 | The method's error and new state are `FailureStep` under the reader's reading. |
| PacketReader.PacketReader.ParseChallenge | src/main/java/org/jivesoftware/smack/PacketReader.java:247-251 | Processes the challenge packet, then hands its text to SASL. |
| PacketReader.PacketReader.ParseSuccess | src/main/java/org/jivesoftware/smack/PacketReader.java:253-258 | Processes the success packet, reopens the stream, resets the parser, and tells SASL. |
| PacketReader.ChallengeStep | src/main/java/org/jivesoftware/smack/PacketReader.java:247-251 | The challenge packet is delivered, then its text is passed to SASL; nothing else changes. |
| PacketReader.SuccessStep | src/main/java/org/jivesoftware/smack/PacketReader.java:253-258 | The success is delivered first, the stream reopened next, the next header read (one header consumed), and success reported last; `done` and the documents do not change. |
| PacketReader.StreamErrorOf | src/main/java/org/jivesoftware/smack/PacketReader.java:216-217 | The exception for a stream error: empty iff the error has no child. As written its code is always null; as intended it is present iff the condition is in the streams namespace. |
| PacketReader.TagBranch | src/main/java/org/jivesoftware/smack/PacketReader.java:209-235 | The branch is unknown iff the tag is none of the ten known tags; otherwise the branch is for exactly that tag. |
| PacketReader.DispatchExclusive | src/main/java/org/jivesoftware/smack/PacketReader.java:209-235 | Distinct tags never share a branch. |
| PacketReader.Dispatch | src/main/java/org/jivesoftware/smack/PacketReader.java:203-238 | One element, under either reading of the namespace checks, never changes `done` or the documents still to read. |
| PacketReader.PacketReader.ReadElement | src/main/java/org/jivesoftware/smack/PacketReader.java:208-238 | The method's error and new state are `Dispatch` under the reader's reading. |
| PacketReader.PacketReader.ReadNegotiation | src/main/java/org/jivesoftware/smack/PacketReader.java:216-235 | The same, for the negotiation tags and an unknown tag. |
| PacketReader.ErrorReported | src/main/java/org/jivesoftware/smack/PacketReader.java:240-244 | The error is reported iff the reader is not done and the socket is not closed; otherwise nothing changes. |
| PacketReader.PacketReader.ReportError | src/main/java/org/jivesoftware/smack/PacketReader.java:240-244 | The state becomes `ErrorReported`. |
| PacketReader.Run | src/main/java/org/jivesoftware/smack/PacketReader.java:200-245 | The loop, under either reading, never changes `done`. |
| PacketReader.PacketReader.ParsePackets | src/main/java/org/jivesoftware/smack/PacketReader.java:200-245 | The state becomes `Run` of the old state. |
| PacketReader.StreamErrorStopsReading | src/main/java/org/jivesoftware/smack/PacketReader.java:216-244 | A stream error ends the loop: nothing later is read, and the error is reported unless the socket is closed. |
| PacketReader.UnknownTagStopsReading | src/main/java/org/jivesoftware/smack/PacketReader.java:232-244 | An unknown tag ends the loop the same way. |
| PacketReader.StanzasDeliveredInOrder | src/main/java/org/jivesoftware/smack/PacketReader.java:210-238 | Messages and presences are each delivered once, in order, and then the end of the stream is reported unless the socket is closed. |
| PacketReader.PingThroughReader | src/main/java/org/jivesoftware/smack/PacketReader.java:214-215 | End to end, a ping request is delivered as a plain IQ by the reader as written and as a Ping by the reader as intended, then the end of the stream is reported. |
| PacketReader.TlsFailureThroughReader | src/main/java/org/jivesoftware/smack/PacketReader.java:223-224 | End to end, a TLS failure is delivered to SASL and the reader reads on as written; as intended the reader stops and reports the TLS failure. |
| PacketReader.TlsRequiredThroughReader | src/main/java/org/jivesoftware/smack/PacketReader.java:218-219 | End to end, with security required on an insecure connection, a STARTTLS offer stops the reader as written with `forbidden`; as intended STARTTLS and SASL are taken up and the reader reads on. |
| PacketReader.PacketReader.ProcessPacket | src/main/java/org/jivesoftware/smack/PacketReader.java:319-331 | null is ignored; any other packet is delivered. |
| PacketReader.Notifications | src/main/java/org/jivesoftware/smack/PacketReader.java:142-151 | One `connectionClosed` per listener, in order. |
| PacketReader.ShutdownState | src/main/java/org/jivesoftware/smack/PacketReader.java:139-157 | Afterwards the reader is done and the executor shut down; the connection id, headers and documents are kept. |
| PacketReader.ShutdownIdempotent | src/main/java/org/jivesoftware/smack/PacketReader.java:141-153 | Listeners are notified iff the reader was not done; a second shutdown changes nothing. |
| PacketReader.NothingReadAfterShutdown | src/main/java/org/jivesoftware/smack/PacketReader.java:200-202 | After shutdown the read loop reads nothing. |
| PacketReader.PacketReader.Shutdown | src/main/java/org/jivesoftware/smack/PacketReader.java:139-157 | The state becomes `ShutdownState`. |
| Sasl.AuthEl | src/main/java/org/jivesoftware/smack/sasl/SASLMechanism.java:304-316 | A null name throws. Otherwise the result is `<auth mechanism=name>` in the SASL namespace, with the text, or empty for null. |
| Sasl.ChallengeEl | src/main/java/org/jivesoftware/smack/sasl/SASLMechanism.java:337-344 | `<challenge>` with the data, or empty for null. |
| Sasl.ResponseEl | src/main/java/org/jivesoftware/smack/sasl/SASLMechanism.java:365-372 | `<response>` with the text, or empty for null or "". |
| Sasl.EmptyResponseIsNoResponse | src/main/java/org/jivesoftware/smack/sasl/SASLMechanism.java:379-385 | `Response("")` and `Response()` build the same frame. |
| Sasl.Trim | src/main/java/org/jivesoftware/smack/sasl/SASLMechanism.java:435 | `trim` never lengthens the string. |
| Sasl.TrimEmptyIffBlank | src/main/java/org/jivesoftware/smack/sasl/SASLMechanism.java:435 | A string trims to nothing iff every character is at most a space. |
| Sasl.FailureEl | src/main/java/org/jivesoftware/smack/sasl/SASLMechanism.java:432-439 | `<failure>` in the SASL namespace with at most one child. |
| Sasl.FailureOfCondition | src/main/java/org/jivesoftware/smack/sasl/SASLMechanism.java:418-421 | `Failure(String)` keeps the condition as given and builds `FailureEl`. |
| Sasl.FailureOfElement | src/main/java/org/jivesoftware/smack/sasl/SASLMechanism.java:424-430 | `Failure(Element)`: the condition is the name of the first child, or null iff there is no child. |
| Sasl.FailureConditionRoundTrip | src/main/java/org/jivesoftware/smack/sasl/SASLMechanism.java:418-439 | A non-blank condition survives building and re-reading; a null or blank one reads back as null. |
| Sasl.InitialAuth | src/main/java/org/jivesoftware/smack/sasl/SASLMechanism.java:213-227 | Without an initial response the frame is `auth` with no text. With one, the text is the Base64 of the client's answer to an empty challenge; a client exception gives "authentication failed". |
| Sasl.SaslMechanism.Authenticate | src/main/java/org/jivesoftware/smack/sasl/SASLMechanism.java:213-227 | With no client it throws and nothing happens. Otherwise it sends exactly `InitialAuth` on success, or nothing on failure. |
| Sasl.ResponseTo | src/main/java/org/jivesoftware/smack/sasl/SASLMechanism.java:238-257 | The reply is a `response` frame and fails iff the client throws. A client answer `b` gives a response whose text is the Base64 of `b`; a null answer gives an empty response. |
| Sasl.SaslMechanism.ChallengeReceived | src/main/java/org/jivesoftware/smack/sasl/SASLMechanism.java:238-257 | Evaluates the decoded challenge, or empty bytes for null, and sends exactly `ResponseTo` unless the client throws. |
| Sasl.Answer | src/main/java/org/jivesoftware/smack/sasl/SASLMechanism.java:276-300 | A name callback gets the authentication id. A password callback gets the password, and throws for null. A realm callback gets its default. A realm choice is untouched. Anything else is unsupported. |
| Sasl.SaslMechanism.Handle | src/main/java/org/jivesoftware/smack/sasl/SASLMechanism.java:274-302 | Every callback is answered as `Answer` says. At the first one that throws, the earlier ones are answered and the later ones are untouched. |
| Sasl.SaslMechanism.constructor | src/main/java/org/jivesoftware/smack/sasl/SASLMechanism.java:85-87 | No client and no credentials yet, and nothing sent. |
| Sasl.SaslMechanism.AuthenticateWithPassword | src/main/java/org/jivesoftware/smack/sasl/SASLMechanism.java:144-161 | Stores the credentials and asks for a client for this mechanism, "xmpp" and the service name, with itself as handler. The new client starts with no challenges seen; then as `authenticate()`. |
| Sasl.SaslMechanism.AuthenticateWithHost | src/main/java/org/jivesoftware/smack/sasl/SASLMechanism.java:183-186 | The same, with the host as the service name. |
| Sasl.SaslMechanism.AuthenticateWithHandler | src/main/java/org/jivesoftware/smack/sasl/SASLMechanism.java:204-211 | Asks for a client with the caller's handler, which starts with no challenges seen, and leaves the stored credentials alone. |
| Configuration.WithMech | src/main/java/org/jivesoftware/smack/SmackConfiguration.java:171-177 | A mechanism is appended only when absent, which keeps the list free of duplicates. |
| Configuration.WithMechsProperties | src/main/java/org/jivesoftware/smack/SmackConfiguration.java:184-190 | Adding several mechanisms keeps the list duplicate-free and the old list as a prefix, and lists exactly the old and the added. |
| Configuration.RemoveFirst | src/main/java/org/jivesoftware/smack/SmackConfiguration.java:197-200 | `List.remove` removes one occurrence when there is one, and nothing otherwise. |
| Configuration.Without | src/main/java/org/jivesoftware/smack/SmackConfiguration.java:207-210 | `removeAll` keeps exactly the mechanisms not removed. |
| Configuration.WithoutKeepsOrder | src/main/java/org/jivesoftware/smack/SmackConfiguration.java:207-210 | What is left is a subsequence of the old list, still duplicate-free. |
| Configuration.RemoveFirstIsWithout | src/main/java/org/jivesoftware/smack/SmackConfiguration.java:197-200 | On the duplicate-free list, `remove` equals `removeAll` of that one mechanism. |
| Configuration.WithoutNothing | src/main/java/org/jivesoftware/smack/SmackConfiguration.java:207-210 | Removing mechanisms that are not listed changes nothing. |
| Configuration.SmackConfiguration.constructor | src/main/java/org/jivesoftware/smack/SmackConfiguration.java:46-54 | Timeout 5000, no mechanisms, not initialized. |
| Configuration.SmackConfiguration.Initialize | src/main/java/org/jivesoftware/smack/SmackConfiguration.java:308-313 | Sets the flag; a second call changes nothing. |
| Configuration.SmackConfiguration.GetPacketReplyTimeout | src/main/java/org/jivesoftware/smack/SmackConfiguration.java:93-101 | Always positive: the stored value, or 5000, which is then stored, when the stored value is at most 0. |
| Configuration.SmackConfiguration.SetPacketReplyTimeout | src/main/java/org/jivesoftware/smack/SmackConfiguration.java:109-116 | Refuses (IllegalArgumentException) iff the timeout is at most 0, keeping the old value; otherwise stores it. |
| Configuration.SmackConfiguration.AddSaslMech | src/main/java/org/jivesoftware/smack/SmackConfiguration.java:171-177 | The list becomes `WithMech`. |
| Configuration.SmackConfiguration.AddSaslMechs | src/main/java/org/jivesoftware/smack/SmackConfiguration.java:184-190 | The list becomes `WithMechs`, one mechanism at a time. |
| Configuration.SmackConfiguration.RemoveSaslMech | src/main/java/org/jivesoftware/smack/SmackConfiguration.java:197-200 | Removes the first occurrence, which is the mechanism altogether. |
| Configuration.SmackConfiguration.RemoveSaslMechs | src/main/java/org/jivesoftware/smack/SmackConfiguration.java:207-210 | Removes every listed mechanism; the rest keep their order. |
| Configuration.SmackConfiguration.GetSaslMechs | src/main/java/org/jivesoftware/smack/SmackConfiguration.java:219-221 | The list returned has no duplicates. |
| RosterEntries.RosterEntry.constructor | src/main/java/org/jivesoftware/smack/RosterEntry.java:62-70 | Stores the user, name, subscription, ask, roster and connection. |
| RosterEntries.GroupNamesOf | src/main/java/org/jivesoftware/smack/RosterEntry.java:143-153 | Exactly the names of the roster's groups that contain the user, at most one per group. |
| RosterEntries.RosterEntry.GetGroupNames | src/main/java/org/jivesoftware/smack/RosterEntry.java:143-153 | The loop returns `GroupNamesOf` in roster order. |
| RosterEntries.RosterEntry.SetName | src/main/java/org/jivesoftware/smack/RosterEntry.java:96-106 | An unchanged non-null name does nothing. Otherwise the name is set and one roster push of type set is sent with the entry's user, name, ask, subscription and groups. |
| RosterEntries.RosterEntry.UpdateState | src/main/java/org/jivesoftware/smack/RosterEntry.java:119-123 | Replaces the name, subscription and ask, and sends nothing. |
| RosterEntries.Join | src/main/java/org/jivesoftware/smack/RosterEntry.java:187-194 | One name is written as itself. |
| RosterEntries.Describe | src/main/java/org/jivesoftware/smack/RosterEntry.java:178-198 | Starts with "name: " when there is a name, or otherwise with the user. It ends with the user when there are no groups, and with "]" otherwise. |
| RosterEntries.RosterEntry.ToString | src/main/java/org/jivesoftware/smack/RosterEntry.java:178-198 | The string built piece by piece is `Describe`. |
| RosterEntries.JoinNames | src/main/java/org/jivesoftware/smack/RosterEntry.java:187-194 | The loop appending ", " and a name gives `Join`. |
| RosterEntries.Int32 | src/main/java/org/jivesoftware/smack/RosterEntry.java:202 | Java int arithmetic: the value congruent modulo 2^32 inside the int range. |
| RosterEntries.Int32Congruent | src/main/java/org/jivesoftware/smack/RosterEntry.java:202 | Two values that differ by a multiple of 2^32 wrap to the same int. |
| RosterEntries.CodeUnits | src/main/java/org/jivesoftware/smack/RosterEntry.java:202 | A character is one UTF-16 unit below U+10000 and otherwise a high surrogate followed by a low surrogate that together encode it. |
| RosterEntries.Utf16 | src/main/java/org/jivesoftware/smack/RosterEntry.java:202 | A string's UTF-16 code units are 16-bit values, between one and two per character. |
| RosterEntries.UnitsHash | src/main/java/org/jivesoftware/smack/RosterEntry.java:202 | The loop `h = 31 * h + c` in int arithmetic stays in the int range. |
| RosterEntries.UnitsHashIsPolynomial | src/main/java/org/jivesoftware/smack/RosterEntry.java:202 | Wrapping at every step of the loop gives the documented polynomial wrapped once. |
| RosterEntries.StringHash | src/main/java/org/jivesoftware/smack/RosterEntry.java:202 | `String.hashCode` is the documented polynomial u[0]*31^(n-1) + ... + u[n-1] over the string's UTF-16 code units, reduced into the int range. |
| RosterEntries.RosterEntry.HashCode | src/main/java/org/jivesoftware/smack/RosterEntry.java:200-203 | The user's `String.hashCode`: that polynomial over the user's UTF-16 code units, in the int range. |
| RosterEntries.SupplementaryCharacterHash | src/main/java/org/jivesoftware/smack/RosterEntry.java:202 | U+1F600 is the surrogate pair D83D DE00, and hashes to 31 * 55357 + 56832 = 1772899. |
| RosterEntries.RosterEntry.Equals | src/main/java/org/jivesoftware/smack/RosterEntry.java:205-214 | True iff the other entry is non-null and has the same user. |
| RosterEntries.RosterEntry.EqualsDeep | src/main/java/org/jivesoftware/smack/RosterEntry.java:228-257 | True iff the other entry is non-null with equal name, ask, subscription and user. |
| RosterEntries.EqualEntriesHashAlike | src/main/java/org/jivesoftware/smack/RosterEntry.java:200-214 | Equal entries have equal hash codes. |
| RosterEntries.EqualsDeepImpliesEquals | src/main/java/org/jivesoftware/smack/RosterEntry.java:205-257 | Deep equality implies equality. |
| RosterEntries.EqualsIsEquivalence | src/main/java/org/jivesoftware/smack/RosterEntry.java:205-214 | Equality is reflexive, symmetric and transitive. |
| RosterStore.Directory.WriteFile | src/main/java/org/jivesoftware/smack/DefaultRosterStore.java:337-348 | Success means the file holds the content. Either way no other file changes. |
| RosterStore.Directory.Delete | src/main/java/org/jivesoftware/smack/DefaultRosterStore.java:164 | Deleting removes exactly an existing file; otherwise nothing changes. |
| RosterStore.Directory.ListEntryFiles | src/main/java/org/jivesoftware/smack/DefaultRosterStore.java:55-63 | `listFiles(rosterDirFilter)` lists every file named `entry-…` exactly once. |
| RosterStore.Directory.ReadFile | src/main/java/org/jivesoftware/smack/DefaultRosterStore.java:309-335 | `readFile` is null iff there is no such file, and otherwise its whole content. |
| RosterStore.FirstNewline | src/main/java/org/jivesoftware/smack/DefaultRosterStore.java:145 | The first newline, absent iff there is none. |
| RosterStore.VersionOf | src/main/java/org/jivesoftware/smack/DefaultRosterStore.java:140-150 | null iff there is no newline; otherwise everything after the first newline. |
| RosterStore.VersionAfterLine | src/main/java/org/jivesoftware/smack/DefaultRosterStore.java:145-149 | A line without a newline, then a newline, then v: the version is v. |
| RosterStore.VersionRoundTrip | src/main/java/org/jivesoftware/smack/DefaultRosterStore.java:140-154 | What `setRosterVersion` writes reads back as the version and passes `open`'s test. |
| RosterStore.StoreFileHasVersion | src/main/java/org/jivesoftware/smack/DefaultRosterStore.java:140-150 | A file `open` accepts always has a version. |
| RosterStore.EntryFileName | src/main/java/org/jivesoftware/smack/DefaultRosterStore.java:304-307 | `entry-` followed by the Base32 of the bare JID, never the version file's name. |
| RosterStore.VersionFileIsNoEntry | src/main/java/org/jivesoftware/smack/DefaultRosterStore.java:52-63 | The version file is never listed as an entry. |
| RosterStore.ItemOf | src/main/java/org/jivesoftware/smack/DefaultRosterStore.java:246-272 | As intended: null iff there is no user, the type names no subscription, or the status names no ask. Otherwise the item carries the fields, and `status` is read only when there is a type. |
| RosterStore.ItemOfAsWritten | src/main/java/org/jivesoftware/smack/DefaultRosterStore.java:261-266 | As written: throws exactly when a valid entry has a status naming no ask; otherwise it agrees with `ItemOf`. |
| RosterStore.UnknownStatusThrows | src/main/java/org/jivesoftware/smack/DefaultRosterStore.java:262-266 | Status "pending" throws as written and gives null as intended. |
| RosterStore.EntryLoop | src/main/java/org/jivesoftware/smack/DefaultRosterStore.java:207-233 | The `readEntry` loop returns only after the `item` end tag, never drops a group already read, and has a user only from an `item` start tag. |
| RosterStore.DecodeEntry | src/main/java/org/jivesoftware/smack/DefaultRosterStore.java:190-273 | `readEntry` as intended on the parser's events: an item only when there is an `item` start tag and the `item` end tag. |
| RosterStore.DecodeEntryAsWritten | src/main/java/org/jivesoftware/smack/DefaultRosterStore.java:190-273 | `readEntry` as written: it throws exactly when the fields read have a status that names no ask after a valid type, and otherwise agrees with `DecodeEntry`. |
| RosterStore.PendingStatusEntryThrows | src/main/java/org/jivesoftware/smack/DefaultRosterStore.java:262-266 | The entry file `<item user='juliet@example.com' type='both' status='pending'></item>` throws as written and reads as null as intended. |
| RosterStore.GroupEventsAddGroups | src/main/java/org/jivesoftware/smack/DefaultRosterStore.java:217-221 | The group elements add their names in order. |
| RosterStore.GroupStep | src/main/java/org/jivesoftware/smack/DefaultRosterStore.java:217-221 | One group element adds its name, then the loop goes on. |
| RosterStore.EntryAttrsRead | src/main/java/org/jivesoftware/smack/DefaultRosterStore.java:278-292 | The `item` tag that `addEntryRaw` writes gives back the user, the name, and the subscription's name under `type`. The ask's name is under `status`. |
| RosterStore.EntryLoopReadsItem | src/main/java/org/jivesoftware/smack/DefaultRosterStore.java:207-233 | The `readEntry` loop over what `addEntryRaw` writes collects exactly the item's attributes and groups. |
| RosterStore.EntryRoundTrip | src/main/java/org/jivesoftware/smack/DefaultRosterStore.java:190-301 | An entry written and read back is the same item, except that an ask without a subscription is dropped. |
| RosterStore.EntryNames | src/main/java/org/jivesoftware/smack/DefaultRosterStore.java:300 | The entry file name of each item, in order. |
| RosterStore.EntryTexts | src/main/java/org/jivesoftware/smack/DefaultRosterStore.java:277-299 | The entry text of each item, in order. |
| RosterStore.EntryText | src/main/java/org/jivesoftware/smack/DefaultRosterStore.java:276-301 | What `addEntryRaw` writes starts with `<item ` and ends with `</item>`. |
| RosterStore.DecodedItemsMembers | src/main/java/org/jivesoftware/smack/DefaultRosterStore.java:117-132 | An item is among the decoded items of a list of files iff one of those files decodes to it. |
| FileWrites.LastWrite | src/main/java/org/jivesoftware/smack/DefaultRosterStore.java:182-186 | The last of the first k writes to a name: absent iff none went there, and no later write went there. |
| FileWrites.AllWrittenKept | src/main/java/org/jivesoftware/smack/DefaultRosterStore.java:182-186 | Files untouched since keep the effect of the writes. |
| FileWrites.WrittenStep | src/main/java/org/jivesoftware/smack/DefaultRosterStore.java:182-186 | One more write keeps the earlier ones' effect, with the later write winning. |
| RosterStore.KnownEntriesStep | src/main/java/org/jivesoftware/smack/DefaultRosterStore.java:182-186 | Every file after a write was there before or is one of the names written. |
| RosterStore.DefaultRosterStore.SetRosterVersion | src/main/java/org/jivesoftware/smack/DefaultRosterStore.java:152-154 | Writes only the version file, and on success the version reads back. |
| RosterStore.DefaultRosterStore.GetRosterVersion | src/main/java/org/jivesoftware/smack/DefaultRosterStore.java:140-150 | null without a version file. Otherwise it is exactly what follows the first newline of the file, null only when there is no newline, and always present for a file `open` accepts. |
| RosterStore.DefaultRosterStore.EntryOf | src/main/java/org/jivesoftware/smack/DefaultRosterStore.java:134-137 | null when the bare JID has no entry file. Otherwise it is exactly what that file decodes to, an item or null. |
| RosterStore.DefaultRosterStore.AddEntryRaw | src/main/java/org/jivesoftware/smack/DefaultRosterStore.java:276-301 | Writes only the item's entry file. |
| RosterStore.DefaultRosterStore.AddEntry | src/main/java/org/jivesoftware/smack/DefaultRosterStore.java:156-159 | On success the entry file holds the item and the version reads back, and when the parser reads the file faithfully the entry reads back as the item. The version changes only on success; nothing else is touched. |
| RosterStore.DefaultRosterStore.RemoveEntry | src/main/java/org/jivesoftware/smack/DefaultRosterStore.java:161-170 | False when the entry does not exist. On success the entry is gone and the version is set. No other file is touched. |
| RosterStore.DefaultRosterStore.DeleteEntries | src/main/java/org/jivesoftware/smack/DefaultRosterStore.java:174-181 | Only deletes, and only entry files. |
| RosterStore.DefaultRosterStore.WriteItems | src/main/java/org/jivesoftware/smack/DefaultRosterStore.java:182-186 | On success every item's file holds its text, the last write winning. Entry files are those written or those there before, and nothing else changes. |
| RosterStore.DefaultRosterStore.ResetEntries | src/main/java/org/jivesoftware/smack/DefaultRosterStore.java:172-188 | On success the version is set and every item's file holds its text, the last write winning; every entry file afterwards was there before or was just written (a delete that returns false is ignored). The version changes only once every item is written. |
| RosterStore.DefaultRosterStore.ReadEntryContent | src/main/java/org/jivesoftware/smack/DefaultRosterStore.java:196-273 | The method computes `DecodeEntry` of the parser's events. |
| RosterStore.DefaultRosterStore.ReadEntry | src/main/java/org/jivesoftware/smack/DefaultRosterStore.java:190-194 | null for a missing file, otherwise the decoded entry. |
| RosterStore.DefaultRosterStore.GetEntry | src/main/java/org/jivesoftware/smack/DefaultRosterStore.java:134-137 | The decoded entry file of the bare JID. |
| RosterStore.DefaultRosterStore.GetEntries | src/main/java/org/jivesoftware/smack/DefaultRosterStore.java:117-132 | Lists each entry file once and returns, in that order, the item of every file that decodes to one, skipping the others; so two files with equal items give two copies. An item is returned iff some entry file decodes to it. |
| RosterStore.Directory.constructor | src/main/java/org/jivesoftware/smack/DefaultRosterStore.java:72-74 | The directory holds the given files. |
| RosterStore.DefaultRosterStore.constructor | src/main/java/org/jivesoftware/smack/DefaultRosterStore.java:72-74 | The store keeps its directory and the codecs it writes and reads entries with. |
| RosterStore.Init | src/main/java/org/jivesoftware/smack/DefaultRosterStore.java:85-93 | Only the version file may change. A store is returned only when the version file now holds the marker and an empty version, which reads back as "". |
| RosterStore.Open | src/main/java/org/jivesoftware/smack/DefaultRosterStore.java:102-111 | A store iff the version file starts with the marker line. Its version is then present, and nothing is written. |
| InBandRegistration.Parse | src/main/java/org/jamppa/client/plugin/xep0077/XEP0077.java:109-120 | Accepts exactly an `iq` whose `query` is in `jabber:iq:register`, which is what the reader calls a registration, and returns it unchanged. |
| InBandRegistration.ParseAcceptsNewRegistration | src/main/java/org/jamppa/client/plugin/xep0077/XEP0077.java:109-120 | `new Registration()` is accepted. |
| InBandRegistration.Supports | src/main/java/org/jamppa/client/plugin/xep0077/XEP0077.java:122-130 | True iff the first `register` child is in the iq-register feature namespace. |
| InBandRegistration.SupportsAgreesWithReader | src/main/java/org/jivesoftware/smack/PacketReader.java:385-389 | The plugin's test agrees with the reader's account-creation feature as intended. |
| InBandRegistration.Xep0077.constructor | src/main/java/org/jamppa/client/plugin/xep0077/XEP0077.java:19 | Starts unsupported, with nothing sent, for the given service. |
| InBandRegistration.Xep0077.CheckSupport | src/main/java/org/jamppa/client/plugin/xep0077/XEP0077.java:122-130 | Remembers `Supports` and sends nothing. |
| InBandRegistration.AccountAttributeNames | src/main/java/org/jamppa/client/plugin/xep0077/XEP0077.java:25-28 | Fails iff the reply has no query. Otherwise the names are exactly the query's child names other than `instructions`. |
| InBandRegistration.Xep0077.GetAccountAttributes | src/main/java/org/jamppa/client/plugin/xep0077/XEP0077.java:23-34 | Sends `new Registration()` to the service. Without a reply the result is the empty set; otherwise it is `AccountAttributeNames` of the reply. |
| InBandRegistration.AccountAttributeValue | src/main/java/org/jamppa/client/plugin/xep0077/XEP0077.java:36-39 | Fails iff the reply has no query or its attributes are null. Otherwise it is present iff the name is advertised. |
| InBandRegistration.AccountAttributeIsLastChild | src/main/java/org/jamppa/client/plugin/xep0077/XEP0077.java:39 | The value is the text of the last child of that name. |
| InBandRegistration.Xep0077.GetAccountAttribute | src/main/java/org/jamppa/client/plugin/xep0077/XEP0077.java:36-45 | Sends the request. Without a reply the result is null; otherwise it is `AccountAttributeValue` of the reply. |
| InBandRegistration.AccountAttributesOverride | src/main/java/org/jamppa/client/plugin/xep0077/XEP0077.java:68-69 | `username` and `password` override the caller's; every other entry is the caller's. |
| InBandRegistration.WrittenFromScratch | src/main/java/org/jamppa/client/plugin/xep0077/XEP0077.java:64-70 | A fresh query after `setAttributes(m)` holds exactly m's entries, and its attributes read back m less `instructions`. |
| InBandRegistration.BuildRegistration | src/main/java/org/jamppa/client/plugin/xep0077/XEP0077.java:64-70 | The request is a registration set with the id, addressed to the service, carrying exactly the map. |
| InBandRegistration.RegistrationSetHolds | src/main/java/org/jamppa/client/plugin/xep0077/XEP0077.java:64-70 | Putting such a query into a fresh registration of type set gives a registration set. |
| InBandRegistration.Xep0077.SendRegistration | src/main/java/org/jamppa/client/plugin/xep0077/XEP0077.java:64-71 | Appends exactly one such registration set. It succeeds iff a reply comes. |
| InBandRegistration.BlankAttributes | src/main/java/org/jamppa/client/plugin/xep0077/XEP0077.java:52-55 | Every advertised name maps to "". |
| InBandRegistration.Xep0077.CreateAccount | src/main/java/org/jamppa/client/plugin/xep0077/XEP0077.java:59-72 | Refused when unsupported, and fails for a JID without a node; in both cases nothing is sent. Otherwise it sends one registration set with the node as `username` and the password over the attributes. |
| InBandRegistration.Xep0077.CreateAccountWithDefaults | src/main/java/org/jamppa/client/plugin/xep0077/XEP0077.java:47-57 | Refused when unsupported. Otherwise it sends the form request; a reply without a query fails, a JID without a node fails on the null text after that one request, and otherwise every advertised name is registered empty, with `username` and `password`. |
| InBandRegistration.Xep0077.CreateAccountBlank | src/main/java/org/jamppa/client/plugin/xep0077/XEP0077.java:52-56 | The rest of the above, once the names are known. |
| InBandRegistration.Xep0077.ChangePassword | src/main/java/org/jamppa/client/plugin/xep0077/XEP0077.java:74-84 | One registration set with the user's node and the new password. |
| InBandRegistration.Xep0077.DeleteAccount | src/main/java/org/jamppa/client/plugin/xep0077/XEP0077.java:86-99 | Refused unless logged in, and then nothing is sent. Otherwise one registration set whose only entry is `remove`. |
| Component.IdText | src/main/java/org/jamppa/component/XMPPComponent.java:226 | A null id is written as "null". |
| Component.CallbackKey | src/main/java/org/jamppa/component/XMPPComponent.java:248-249 | `id@bare`: its length is the id's, plus one, plus the bare JID's. |
| Component.CallbackKeyParts | src/main/java/org/jamppa/component/XMPPComponent.java:226-227 | The key splits back into the id, "@" and the bare JID. |
| Component.CallbackKeyInjective | src/main/java/org/jamppa/component/XMPPComponent.java:226-227 | For ids without "@", two keys are equal iff both the ids and the bare JIDs are. |
| Component.CallbackKeyIsNotTheId | src/main/java/org/jamppa/component/XMPPComponent.java:248-262 | A key is never the bare id. |
| Component.Handle | src/main/java/org/jamppa/component/XMPPComponent.java:105-121 | An error IQ iff there is no `query`, or no handler for its namespace. Otherwise the request is answered by the handler for that namespace. |
| Component.LaterHandlerWins | src/main/java/org/jamppa/component/XMPPComponent.java:80-88 | A handler added for a namespace answers every request in it. |
| Component.OtherHandlerIrrelevant | src/main/java/org/jamppa/component/XMPPComponent.java:80-88 | A handler for another namespace changes no answer. |
| Component.XmppComponent.constructor | src/main/java/org/jamppa/component/XMPPComponent.java:64-70 | Stores the connection parameters, with empty tables. |
| Component.XmppComponent.AddSetHandler | src/main/java/org/jamppa/component/XMPPComponent.java:80-83 | Replaces the set handler for its namespace, and only that. |
| Component.XmppComponent.AddGetHandler | src/main/java/org/jamppa/component/XMPPComponent.java:85-88 | Replaces the get handler for its namespace, and only that. |
| Component.XmppComponent.HandleIqSet | src/main/java/org/jamppa/component/XMPPComponent.java:95-98 | `Handle` with the set table. |
| Component.XmppComponent.HandleIqGet | src/main/java/org/jamppa/component/XMPPComponent.java:100-103 | `Handle` with the get table. |
| Component.XmppComponent.HandleIqResult | src/main/java/org/jamppa/component/XMPPComponent.java:224-233 | Throws for a sender-less IQ. A registered callback is invoked once and removed; otherwise nothing changes. |
| Component.XmppComponent.HandleIqError | src/main/java/org/jamppa/component/XMPPComponent.java:235-238 | Exactly as `handleIQResult`. |
| Component.XmppComponent.AddPacketCallback | src/main/java/org/jamppa/component/XMPPComponent.java:266-270 | Registers under `id@bare(to)` and fails for a packet with no addressee. |
| Component.XmppComponent.SendAndAwait | src/main/java/org/jamppa/component/XMPPComponent.java:247-258 | Registers a fresh waiter and sends the packet. The reply is returned iff it is for this packet, and the waiter then sees it. |
| Component.RemoveByIdAsWritten | src/main/java/org/jamppa/component/XMPPComponent.java:262 | Removes only the key equal to the id. |
| Component.UnansweredCallbackLeaks | src/main/java/org/jamppa/component/XMPPComponent.java:248-262 | A waiter under `id@bare` survives that removal. |
| Component.XmppComponent.SyncSendPacketAsWritten | src/main/java/org/jamppa/component/XMPPComponent.java:247-263 | As written, the reply is returned iff it is for this request. After a delivered reply the table is the old one with the reply's entry and the bare `id` key removed. An unanswered request leaves its fresh waiter registered, and the rest of the table is the same as in the delivered case. |
| Component.XmppComponent.SyncSendPacket | src/main/java/org/jamppa/component/XMPPComponent.java:247-263 | As intended: the packet is sent, and the reply is returned iff it is for it. Afterwards the table has lost only the registered key and the entry the reply resolved. |
| Component.ReplyThenCleanup | src/main/java/org/jamppa/component/XMPPComponent.java:226-231 | Registering, seeing the reply and removing the key leaves the rest of the table as the reply alone would. |
| Component.UndeliveredKeepsWaiter | src/main/java/org/jamppa/component/XMPPComponent.java:226-231 | A reply for another key leaves the waiter in place. |
| Component.AfterReply | src/main/java/org/jamppa/component/XMPPComponent.java:225-233 | `handleIQResult` removes exactly the entry under `id@bareJid` of the reply's sender, if there is one, and leaves every other entry as it was. |

## Left out

- `PacketReader.startup` is not modelled. It starts the reader thread and waits, with a timeout, for the connection id. Threads and timed waits are out of scope; `releaseConnectionIDLock` is recorded as an event instead.
- The listener executor and the reader thread are not modelled. Delivery to collectors and listeners is one `Delivered` event, in order.
- `PacketParserUtils.parseWithIntrospection` and the `float`, `double` and `java.lang.Class` branches of `decode` are left out. They need Java reflection, floating point and class loading; `Decode` requires a type outside those three.
- dom4j's `setText(null)` is not modelled. A null text passed to `updateText` is the `NullText` error, where it is reachable (a JID without a node in `createAccount`).
- `readFile`'s buffered loop and its `IOException` are not modelled: a file is present with its whole content, or absent. `listFiles` returning null and a `SecurityException` are not modelled either; `Delete` may fail, and that is all.
- JID parsing (`new JID(String)`) is not modelled. JIDs are given already split into node, domain and resource.
- InBandRegistration.Xep0077.CreateAccount: it does not model Java's mutation of the caller's map by `attributes.put`. The request carries the overridden map, and the caller's value is not shown changed.
- InBandRegistration.Xep0077.GetAccountAttributes: it does not model the `ClassCastException` when the reply is not a `Registration`. The reply is taken to be an IQ element.
- Component.XmppComponent.SyncSendPacket: it does not model the 5-second poll and the `InterruptedException` path. The reply is a parameter that is absent when none arrives in time.
- `ExternalComponentManager` (connect, disconnect) and `send` are not modelled. `send` is an append to the `sent` log.
- `XMPPComponent`'s description, name and disco setters and getters are not modelled, nor `process`. These are plain field accessors, or delegate to code not modelled.
- The `SmackConfiguration` settings other than the reply timeout and the SASL list, and `getVersion`, are not modelled. They are plain static fields with the same get/set pattern.
- Configuration.SmackConfiguration.GetSaslMechs: it returns the list as a value. It does not model that the unmodifiable view aliases later changes.
- PacketParserUtils.ParseInteger: it accepts ASCII digits only. `Integer.parseInt` also accepts any other Unicode decimal digit (`Character.digit`), so `code="١٢"` is 12 in Java and a format error here.
- PacketParserUtils.AsciiUpper: it upper-cases ASCII letters only and has no locale. Java's `toUpperCase()` maps every lower-case character (`ı` to `I`, `ß` to `SS`, which changes the length) under the default locale (under a Turkish locale `wait` becomes `WAİT`).
- PacketParserUtils.ParseErrorType: it inherits the ASCII-only upper-casing of `AsciiUpper`. The type `contınue` is CANCEL here and CONTINUE in Java, and under a Turkish locale Java reads `wait` as CANCEL.
- RosterStore.DefaultRosterStore.ReadEntryContent, RosterStore.DefaultRosterStore.ReadEntry, RosterStore.DefaultRosterStore.GetEntry and RosterStore.DefaultRosterStore.GetEntries: they run the corrected `ItemOf`, where an unknown status gives null. As written the `IllegalArgumentException` of `Ask.valueOf` escapes them; `DecodeEntryAsWritten` states that on the parser's events, but the methods do not carry the exception.
- `readEntry`'s pass through Tinder's `Roster.addItem` and `getItems` (building a `JID` from the user and reading the single item back) is not modelled. `DecodeEntry` builds the roster item directly from the fields read, and JID parsing is out of scope (see below).
- RosterEntries.RosterEntry.HashCode: it does not model a null user, for which Java returns 0 and `equals` throws; the user is always non-null here.
- `RosterEntry.getGroups`, `getUser`, `getName`, `getSubscription` and `getAsk` are not modelled. They are field reads, or the group loop that `GetGroupNames` models. The internals of `RosterGroup` and `UserRoster` are not modelled: a group is a name and a set of users.
- `QueryHandler.setPacketSender`, the text of `XMPPUtils.error` messages and the handler's own answer are not modelled. A reply records which handler answered, or which error was produced.
- Registration.WriteAttributes: it does not fix the order in which `HashMap` iterates. The contract holds for every order that visits each key once.
- The SASL client, Base64, Base32, SHA-1, `StringUtils.xmlAttrib` and MXParser are function parameters. Their own behaviour is not modelled. Round trips through them assume the parser reads back what was written.
- `XMPPBase`, `XMPPClient`, the example `Main` programs and the plugin scaffolding are not modelled. They are wiring, not protocol logic.

## Findings

| source | as written | input that shows it | evidently intended | confidence | as-written member | corrected member |
|---|---|---|---|---|---|---|
| src/main/java/org/jivesoftware/smack/PacketReader.java:274,279,336-387 | `element.getNamespace().equals("uri")` compares a dom4j `Namespace` with a `String`, which is always false. No ping or bind IQ is recognised, and no stream feature is ever taken up. | `<iq><ping xmlns='urn:xmpp:ping'/></iq>`; features offering `<starttls xmlns='urn:ietf:params:xml:ns:xmpp-tls'><required/></starttls>` with security required | Compare the namespace URI, as the `query` checks at lines 285-291 do | high; not executed | PacketReader.ParseIqAsWritten, PacketReader.PingReadAsPlainIq, PacketReader.PingThroughReader, PacketReader.ParseFeaturesAsWritten, PacketReader.StartTlsOfferIgnored, PacketReader.TlsRequiredThroughReader | PacketReader.ParseIq, PacketReader.FeaturesOutcome |
| src/main/java/org/jivesoftware/smack/PacketReader.java:261,263 | `"uri".equals(failureEl.getNamespace())` compares a `String` with a `Namespace`, which is always false. Every failure is treated as a SASL failure. | `<failure xmlns='urn:ietf:params:xml:ns:xmpp-tls'/>` | Route TLS and compression failures by namespace URI | high; not executed | PacketReader.RouteFailureAsWritten, PacketReader.TlsFailureTakenForSasl, PacketReader.TlsFailureThroughReader | PacketReader.RouteFailure |
| src/main/java/org/jivesoftware/smack/PacketReader.java:358-359 | The caps `node` and `ver` are read from the `features` element, not from `<c/>` | `<features><c xmlns='http://jabber.org/protocol/caps' hash='sha-1' node='n' ver='v'/></features>` | Read them from `cEl` (section 6.3 of XEP-0115 places them on `c`) | high; not executed | PacketReader.CapsNodeAsWritten, PacketReader.CapsNodeReadFromWrongElement | PacketReader.CapsNode |
| src/main/java/org/jivesoftware/smack/util/PacketParserUtils.java:69,72 | The condition is compared by `Namespace.equals(String)`, and the `<text/>` is looked up inside the condition element | `<stream:error><conflict xmlns='urn:ietf:params:xml:ns:xmpp-streams'/><text xmlns='…'>t</text></stream:error>` | The code is the condition name, and the text is the sibling `<text/>` (section 4.9.2 of RFC 6120) | high; not executed | PacketParserUtils.ParseStreamErrorAsWritten, PacketParserUtils.StreamErrorAsWrittenLosesConflict | PacketParserUtils.ParseStreamError |
| src/main/java/org/jamppa/component/XMPPComponent.java:249,262 | `syncSendPacket` registers its waiter under `id@bareJid` but removes `id` alone | Any request that gets no reply within the timeout | Remove the key that was registered | high; not executed | Component.RemoveByIdAsWritten, Component.UnansweredCallbackLeaks, Component.XmppComponent.SyncSendPacketAsWritten | Component.XmppComponent.SyncSendPacket, Component.ReplyThenCleanup |
| src/main/java/org/jivesoftware/smack/DefaultRosterStore.java:262-266 | `Ask.valueOf` of an enum throws on an unknown name, so the null check after it never fires and the exception escapes `readEntry` | An entry file `<item user='juliet@example.com' type='both' status='pending'></item>` | Treat an unknown status as an invalid entry (null) | high; not executed | RosterStore.ItemOfAsWritten, RosterStore.UnknownStatusThrows, RosterStore.DecodeEntryAsWritten, RosterStore.PendingStatusEntryThrows | RosterStore.ItemOf |
