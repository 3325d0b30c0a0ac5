/** Writes of a sequence of files into a directory, where a later write to a name overrides an earlier one. */
module FileWrites {
  /** The position of the last of the first `k` writes that went to `name`, or -1 when none did. */
  function LastWrite(names: seq<string>, name: string, k: nat): (r: int)
    requires k <= |names|
    ensures -1 <= r < k
    ensures r >= 0 <==> exists i :: 0 <= i < k && names[i] == name
    ensures r >= 0 ==> names[r] == name && forall j :: r < j < k ==> names[j] != name
    decreases k
  {
    if k == 0 then -1
    else if names[k - 1] == name then k - 1
    else LastWrite(names, name, k - 1)
  }

  /**
   * After the first `k` writes of `texts` to `names`: every name written
   * holds the text of its last write.
   */
  ghost predicate AllWritten(files: map<string, string>, names: seq<string>, texts: seq<string>, k: nat)
    requires |names| == |texts| && k <= |names|
  {
    forall name :: LastWrite(names, name, k) >= 0 ==> name in files && files[name] == texts[LastWrite(names, name, k)]
  }

  /** Files the writes went to and that are as they were keep the writes' effect. */
  lemma AllWrittenKept(before: map<string, string>, after: map<string, string>, names: seq<string>, texts: seq<string>, k: nat)
    requires |names| == |texts| && k <= |names|
    requires AllWritten(before, names, texts, k)
    requires forall i :: 0 <= i < k ==> (names[i] in after <==> names[i] in before) && (names[i] in after ==> after[names[i]] == before[names[i]])
    ensures AllWritten(after, names, texts, k)
  {
  }

  /** One more file written on top of the ones before. */
  lemma WrittenStep(before: map<string, string>, after: map<string, string>, names: seq<string>, texts: seq<string>, k: nat)
    requires |names| == |texts| && k < |names|
    requires AllWritten(before, names, texts, k)
    requires after == before[names[k] := texts[k]]
    ensures AllWritten(after, names, texts, k + 1)
  {
  }
}

/**
 * DefaultRosterStore: the client's copy of the roster for roster versioning
 * (section 2.6 of RFC 6121), kept in a directory as one file per contact
 * plus a version file. The directory is a map from file name to content
 * whose writes and deletes may fail; Base32, xmlAttrib and the XML pull
 * parser are oracles.
 */
module RosterStore {
  import opened Wrappers
  import opened Xml
  import opened RosterItems
  import opened FileWrites

  const ENTRY_PREFIX := "entry-"
  const VERSION_FILE_NAME := "__version__"
  const STORE_ID := "DEFAULT_ROSTER_STORE"

  // ---------------------------------------------------------------------
  // The directory
  // ---------------------------------------------------------------------

  /** What File.delete did: removed the file, returned false, or threw a SecurityException. */
  datatype DeleteResult = Deleted | NotDeleted | Denied

  /** The rosterDirFilter: the entry files are exactly those named with the entry prefix. */
  predicate IsEntryName(name: string)
  {
    ENTRY_PREFIX <= name
  }

  /** The store's base directory. */
  class Directory {
    var files: map<string, string>

    constructor (files: map<string, string>)
      ensures this.files == files
    {
      this.files := files;
    }

    /** readFile: the content, or null when there is no such file. */
    function ReadFile(name: string): (r: Option<string>)
      reads this
      ensures r.Some? <==> name in files
      ensures r.Some? ==> r.value == files[name]
    {
      if name in files then Some(files[name]) else None
    }

    /**
     * writeFile: the file now holds `content`, or the write failed with an
     * IOException and that one file is left in an unknown state.
     */
    method WriteFile(name: string, content: string) returns (ok: bool)
      modifies this
      ensures ok ==> files == old(files)[name := content]
      ensures forall n :: n != name ==> (n in files <==> n in old(files)) && (n in files ==> files[n] == old(files)[n])
    {
      ok := *;
      if ok {
        files := files[name := content];
      } else if * {
        var partial: string := *;
        files := files[name := partial];
      } else if * {
        files := files - {name};
      }
    }

    /** File.delete: false when there is no such file; it may also refuse, or throw. */
    method Delete(name: string) returns (r: DeleteResult)
      modifies this
      ensures r.Deleted? ==> name in old(files) && files == old(files) - {name}
      ensures !r.Deleted? ==> files == old(files)
    {
      var refused: bool := *;
      var removed: bool := *;
      if refused {
        r := Denied;
      } else if name in files && removed {
        files := files - {name};
        r := Deleted;
      } else {
        r := NotDeleted;
      }
    }

    /** listFiles(rosterDirFilter): every entry file once, in no particular order. */
    method ListEntryFiles() returns (names: seq<string>)
      ensures forall i, j :: 0 <= i < j < |names| ==> names[i] != names[j]
      ensures forall n :: n in names <==> n in files && IsEntryName(n)
    {
      names := [];
      var remaining := set n | n in files && IsEntryName(n);
      while remaining != {}
        invariant forall i, j :: 0 <= i < j < |names| ==> names[i] != names[j]
        invariant forall n :: n in remaining ==> n in files && IsEntryName(n) && n !in names
        invariant forall n :: n in names ==> n in files && IsEntryName(n)
        invariant forall n :: n in files && IsEntryName(n) ==> n in remaining || n in names
        decreases |remaining|
      {
        var name :| name in remaining;
        names := names + [name];
        remaining := remaining - {name};
      }
    }
  }

  /** The version file's content, or None when it is missing. */
  function VersionFile(files: map<string, string>): Option<string>
  {
    if VERSION_FILE_NAME in files then Some(files[VERSION_FILE_NAME]) else None
  }

  // ---------------------------------------------------------------------
  // The version file
  // ---------------------------------------------------------------------

  /** setRosterVersion's content: the store's marker line, then the version. */
  function VersionFileContent(version: string): string
  {
    STORE_ID + "\n" + version
  }

  /** open's test: the content starts with the marker line. */
  predicate IsStoreFile(s: string)
  {
    STORE_ID + "\n" <= s
  }

  /** The position of the first newline of `s`, if any. */
  function FirstNewline(s: string): (r: Option<nat>)
    ensures r.None? <==> '\n' !in s
    ensures r.Some? ==> r.value < |s| && s[r.value] == '\n' && '\n' !in s[..r.value]
    decreases |s|
  {
    if |s| == 0 then None
    else if s[0] == '\n' then Some(0)
    else
      match FirstNewline(s[1..])
      case None => None
      case Some(i) =>
        assert s[..i + 1] == [s[0]] + s[1..][..i];
        Some(i + 1)
  }

  /** getRosterVersion's `split("\n", 2)[1]`: what follows the first newline; null when there is none. */
  function VersionOf(s: string): (r: Option<string>)
    ensures r.None? <==> '\n' !in s
    ensures r.Some? ==> |r.value| < |s| && s[|s| - |r.value| - 1] == '\n' && '\n' !in s[..|s| - |r.value| - 1]
    ensures r.Some? ==> r.value == s[|s| - |r.value|..]
  {
    match FirstNewline(s)
    case None => None
    case Some(i) => Some(s[i + 1..])
  }

  /** A line without a newline, then one: the version is what follows. */
  lemma VersionAfterLine(line: string, version: string)
    requires '\n' !in line
    ensures VersionOf(line + "\n" + version) == Some(version)
  {
    var s := line + "\n" + version;
    assert s[|line|] == '\n';
    assert s[..|line|] == line;
    assert s[|line| + 1..] == version;
  }

  /** setRosterVersion then getRosterVersion: the version comes back, and the file passes open's test. */
  lemma VersionRoundTrip(version: string)
    ensures VersionOf(VersionFileContent(version)) == Some(version)
    ensures IsStoreFile(VersionFileContent(version))
  {
    assert '\n' !in STORE_ID;
    VersionAfterLine(STORE_ID, version);
    assert VersionFileContent(version) == (STORE_ID + "\n") + version;
  }

  /** A file open accepts always has a version, possibly empty. */
  lemma {:induction false} StoreFileHasVersion(s: string)
    requires IsStoreFile(s)
    ensures VersionOf(s).Some?
  {
    var i := |STORE_ID|;
    assert s[i] == '\n';
  }

  // ---------------------------------------------------------------------
  // Entry files
  // ---------------------------------------------------------------------

  /** getBareJidFile: the entry prefix, then the Base32 encoding of the bare JID. */
  function EntryFileName(base32: string -> string, bareJid: string): (r: string)
    ensures IsEntryName(r) && r[|ENTRY_PREFIX|..] == base32(bareJid)
    ensures r != VERSION_FILE_NAME
  {
    var r := ENTRY_PREFIX + base32(bareJid);
    assert r[..|ENTRY_PREFIX|] == ENTRY_PREFIX;
    assert VERSION_FILE_NAME[0] != ENTRY_PREFIX[0];
    r
  }

  /** The attributes of the `item` tag addEntryRaw writes: `user`, then `name`, `type` and `status` when set. */
  function EntryAttrs(item: RosterItem): Attrs
  {
    [("user", item.jid)]
    + (if item.name.Some? then [("name", item.name.value)] else [])
    + (if item.subscription.Some? then [("type", SubscriptionName(item.subscription.value))] else [])
    + (if item.ask.Some? then [("status", AskName(item.ask.value))] else [])
  }

  /** The text addEntryRaw writes for those attributes, each `xmlAttrib(key, value)` followed by a space. */
  function AttrsText(xmlAttrib: (string, string) -> string, attrs: Attrs): string
    decreases |attrs|
  {
    if |attrs| == 0 then "" else xmlAttrib(attrs[0].0, attrs[0].1) + " " + AttrsText(xmlAttrib, attrs[1..])
  }

  /** One empty `group` element per group, in order. */
  function GroupsText(xmlAttrib: (string, string) -> string, groups: seq<string>): string
    decreases |groups|
  {
    if |groups| == 0 then "" else "<group " + xmlAttrib("name", groups[0]) + " />" + GroupsText(xmlAttrib, groups[1..])
  }

  /** addEntryRaw's content for an item. */
  function EntryText(xmlAttrib: (string, string) -> string, item: RosterItem): (r: string)
    ensures |r| >= 14 && r[..6] == "<item " && r[|r| - 7..] == "</item>"
  {
    var body := AttrsText(xmlAttrib, EntryAttrs(item)) + ">" + GroupsText(xmlAttrib, item.groups);
    var r := "<item " + body + "</item>";
    assert r[..6] == "<item ";
    assert r[|r| - 7..] == "</item>";
    r
  }

  /** The events a pull parser reports for the `group` elements. */
  function GroupEvents(groups: seq<string>): seq<PullEvent>
    decreases |groups|
  {
    if |groups| == 0 then [] else OneGroupEvents(groups[0]) + GroupEvents(groups[1..])
  }

  /** The events of one empty `group` element. */
  function OneGroupEvents(group: string): seq<PullEvent>
  {
    [StartTag("group", "", [("name", group)], true), EndTag("group")]
  }

  /** The events a pull parser reports for EntryText(item). */
  function EntryEvents(item: RosterItem): seq<PullEvent>
  {
    [StartTag("item", "", EntryAttrs(item), false)] + GroupEvents(item.groups) + [EndTag("item")]
  }

  /** The locals of readEntry's loop: the item tag's four attributes and the group names so far. */
  datatype EntryFields = EntryFields(
    user: Option<string>,
    name: Option<string>,
    subscriptionType: Option<string>,
    status: Option<string>,
    groups: seq<string>)

  const NoFields := EntryFields(None, None, None, None, [])

  /** One START_TAG of readEntry's loop: an `item` tag resets the four attributes, a named `group` adds a group. */
  function StartTagStep(f: EntryFields, name: string, attrs: Attrs): EntryFields
  {
    var f1 :=
      if name == "item" then
        f.(user := AttrValue(attrs, "user"), name := AttrValue(attrs, "name"),
           subscriptionType := AttrValue(attrs, "type"), status := AttrValue(attrs, "status"))
      else f;
    if name == "group" && AttrValue(attrs, "name").Some? then f1.(groups := f1.groups + [AttrValue(attrs, "name").value])
    else f1
  }

  /**
   * readEntry's `while (!done)` loop over the events: it ends at the `item`
   * END_TAG; running out of events is the parser's exception, and null.
   */
  function EntryLoop(evs: seq<PullEvent>, f: EntryFields): (r: Option<EntryFields>)
    ensures r.Some? ==> EndTag("item") in evs
    ensures r.Some? ==> f.groups <= r.value.groups
    ensures r.Some? && r.value.user.Some? ==> f.user.Some? || exists i :: 0 <= i < |evs| && evs[i].StartTag? && evs[i].name == "item"
    decreases |evs|
  {
    if |evs| == 0 then None
    else
      match evs[0]
      case StartTag(name, _, attrs, _) => EntryLoop(evs[1..], StartTagStep(f, name, attrs))
      case EndTag(name) => if name == "item" then Some(f) else EntryLoop(evs[1..], f)
      case TextEvent(_) => EntryLoop(evs[1..], f)
  }

  /**
   * The checks after the loop: a user is required, a `type` must name a
   * subscription, and `status` is read only when there is a `type` and must
   * name an ask; any failed check gives null.
   */
  function ItemOf(f: EntryFields): (r: Option<RosterItem>)
    ensures r.Some? ==> Some(r.value.jid) == f.user && r.value.name == f.name && r.value.groups == f.groups
    ensures r.Some? ==> (r.value.subscription.None? <==> f.subscriptionType.None?)
    ensures r.Some? && f.subscriptionType.Some? ==> SubscriptionName(r.value.subscription.value) == f.subscriptionType.value
    ensures r.Some? ==> (r.value.ask.None? <==> f.subscriptionType.None? || f.status.None?)
    ensures r.Some? && r.value.ask.Some? ==> AskName(r.value.ask.value) == f.status.value
    ensures r.None? <==> f.user.None?
                         || (f.subscriptionType.Some? && SubscriptionOf(f.subscriptionType.value).None?)
                         || (f.subscriptionType.Some? && f.status.Some? && AskOf(f.status.value).None?)
  {
    match f.user
    case None => None
    case Some(user) =>
      match f.subscriptionType
      case None => Some(RosterItem(user, f.name, None, None, f.groups))
      case Some(t) =>
        match SubscriptionOf(t)
        case None => None
        case Some(subscription) =>
          match f.status
          case None => Some(RosterItem(user, f.name, Some(subscription), None, f.groups))
          case Some(s) =>
            match AskOf(s)
            case None => None
            case Some(ask) => Some(RosterItem(user, f.name, Some(subscription), Some(ask), f.groups))
  }

  /** The exception readEntry lets escape. */
  datatype EntryError = IllegalArgument

  /**
   * The checks as written: Ask.valueOf of an enum throws on an unknown name
   * instead of returning null, so the null check after it never fires and
   * the exception escapes readEntry (and getEntries).
   */
  function ItemOfAsWritten(f: EntryFields): (r: Result<Option<RosterItem>, EntryError>)
    ensures r.Err? <==> f.user.Some? && f.subscriptionType.Some? && SubscriptionOf(f.subscriptionType.value).Some?
                        && f.status.Some? && AskOf(f.status.value).None?
    ensures r.Ok? ==> r.value == ItemOf(f)
  {
    match f.user
    case None => Ok(None)
    case Some(user) =>
      match f.subscriptionType
      case None => Ok(Some(RosterItem(user, f.name, None, None, f.groups)))
      case Some(t) =>
        match SubscriptionOf(t)
        case None => Ok(None)
        case Some(subscription) =>
          match f.status
          case None => Ok(Some(RosterItem(user, f.name, Some(subscription), None, f.groups)))
          case Some(s) =>
            match AskOf(s)
            case None => Err(IllegalArgument)
            case Some(ask) => Ok(Some(RosterItem(user, f.name, Some(subscription), Some(ask), f.groups)))
  }

  /** An entry file whose status is not an ask: as written it throws, where null was meant. */
  lemma UnknownStatusThrows()
    ensures ItemOfAsWritten(EntryFields(Some("juliet@example.com"), None, Some("both"), Some("pending"), [])) == Err(IllegalArgument)
    ensures ItemOf(EntryFields(Some("juliet@example.com"), None, Some("both"), Some("pending"), [])) == None
  {
    assert AskOf("pending") == None;
    assert SubscriptionOf("both") == Some(Both);
  }

  /**
   * readEntry on the parser's events: an item needs an `item` start tag
   * (for its user) and the `item` end tag; without them it is null.
   */
  function DecodeEntry(evs: seq<PullEvent>): (r: Option<RosterItem>)
    ensures r.Some? ==> EndTag("item") in evs
    ensures r.Some? ==> exists i :: 0 <= i < |evs| && evs[i].StartTag? && evs[i].name == "item"
  {
    match EntryLoop(evs, NoFields)
    case None => None
    case Some(f) => ItemOf(f)
  }

  /** readEntry as written on the parser's events: an unknown status throws out of it, and otherwise it agrees with DecodeEntry. */
  function DecodeEntryAsWritten(evs: seq<PullEvent>): (r: Result<Option<RosterItem>, EntryError>)
    ensures r.Ok? ==> r.value == DecodeEntry(evs)
    ensures r.Err? <==> EntryLoop(evs, NoFields).Some? && ItemOfAsWritten(EntryLoop(evs, NoFields).value).Err?
  {
    match EntryLoop(evs, NoFields)
    case None => Ok(None)
    case Some(f) => ItemOfAsWritten(f)
  }

  /** The events of `<item user='juliet@example.com' type='both' status='pending'></item>`. */
  function PendingStatusEvents(): seq<PullEvent>
  {
    [StartTag("item", "", [("user", "juliet@example.com"), ("type", "both"), ("status", "pending")], false), EndTag("item")]
  }

  /** The entry file of the finding, read end to end: as written readEntry throws, as intended it returns null. */
  lemma PendingStatusEntryThrows()
    ensures DecodeEntryAsWritten(PendingStatusEvents()) == Err(IllegalArgument)
    ensures DecodeEntry(PendingStatusEvents()) == None
  {
    var f := EntryFields(Some("juliet@example.com"), None, Some("both"), Some("pending"), []);
    assert EntryLoop(PendingStatusEvents(), NoFields) == Some(f);
    UnknownStatusThrows();
  }

  /** The group elements add their names, in order. */
  lemma {:induction false} GroupEventsAddGroups(groups: seq<string>, rest: seq<PullEvent>, f: EntryFields)
    ensures EntryLoop(GroupEvents(groups) + rest, f) == EntryLoop(rest, f.(groups := f.groups + groups))
    decreases |groups|
  {
    if |groups| == 0 {
      assert GroupEvents(groups) + rest == rest;
      assert f.groups + groups == f.groups;
    } else {
      var f1 := f.(groups := f.groups + [groups[0]]);
      var after := GroupEvents(groups[1..]) + rest;
      FirstGroupEvents(groups, rest);
      GroupStep(groups[0], after, f);
      GroupEventsAddGroups(groups[1..], rest, f1);
      PrependFirst(f.groups, groups);
      assert f1.(groups := f1.groups + groups[1..]) == f.(groups := f.groups + groups);
    }
  }

  /** Moving the first group name across the concatenation. */
  lemma PrependFirst(done: seq<string>, groups: seq<string>)
    requires |groups| > 0
    ensures done + [groups[0]] + groups[1..] == done + groups
  {
    assert groups == [groups[0]] + groups[1..];
  }

  /** One group element adds its name and the loop goes on. */
  lemma GroupStep(g: string, rest: seq<PullEvent>, f: EntryFields)
    ensures EntryLoop(OneGroupEvents(g) + rest, f) == EntryLoop(rest, f.(groups := f.groups + [g]))
  {
    var evs := OneGroupEvents(g) + rest;
    var f1 := f.(groups := f.groups + [g]);
    assert evs[0] == StartTag("group", "", [("name", g)], true);
    assert AttrValue([("name", g)], "name") == Some(g);
    assert StartTagStep(f, "group", [("name", g)]) == f1;
    assert evs[1..][0] == EndTag("group");
    assert evs[1..][1..] == rest;
  }

  /** The first group's two events come first. */
  lemma FirstGroupEvents(groups: seq<string>, rest: seq<PullEvent>)
    requires |groups| > 0
    ensures GroupEvents(groups) + rest == OneGroupEvents(groups[0]) + (GroupEvents(groups[1..]) + rest)
  {
    var head := OneGroupEvents(groups[0]);
    assert GroupEvents(groups) == head + GroupEvents(groups[1..]);
    EventsAssoc(head, GroupEvents(groups[1..]), rest);
  }

  /** The attributes of the item tag read back as written. */
  lemma EntryAttrsRead(item: RosterItem)
    ensures AttrValue(EntryAttrs(item), "user") == Some(item.jid)
    ensures AttrValue(EntryAttrs(item), "name") == item.name
    ensures AttrValue(EntryAttrs(item), "type") == if item.subscription.Some? then Some(SubscriptionName(item.subscription.value)) else None
    ensures AttrValue(EntryAttrs(item), "status") == if item.ask.Some? then Some(AskName(item.ask.value)) else None
  {
    var user: Attrs := [("user", item.jid)];
    var name: Attrs := if item.name.Some? then [("name", item.name.value)] else [];
    var kind: Attrs := if item.subscription.Some? then [("type", SubscriptionName(item.subscription.value))] else [];
    var status: Attrs := if item.ask.Some? then [("status", AskName(item.ask.value))] else [];
    assert EntryAttrs(item) == user + name + kind + status;
    EntryAttrsKey(user, name, kind, status, "user");
    EntryAttrsKey(user, name, kind, status, "name");
    EntryAttrsKey(user, name, kind, status, "type");
    EntryAttrsKey(user, name, kind, status, "status");
  }

  /** A key is looked up in the four parts of the item tag's attributes in turn. */
  lemma EntryAttrsKey(user: Attrs, name: Attrs, kind: Attrs, status: Attrs, key: string)
    ensures AttrValue(user + name + kind + status, key) ==
      if AttrValue(user, key).Some? then AttrValue(user, key)
      else if AttrValue(name, key).Some? then AttrValue(name, key)
      else if AttrValue(kind, key).Some? then AttrValue(kind, key)
      else AttrValue(status, key)
  {
    AttrValueAppend(user + name + kind, status, key);
    AttrValueAppend(user + name, kind, key);
    AttrValueAppend(user, name, key);
  }

  /**
   * What addEntryRaw writes, readEntry reads back: the same item, except
   * that a pending ask is dropped when the item has no subscription (the
   * status attribute is only read when there is a type).
   */
  lemma EntryRoundTrip(item: RosterItem)
    ensures DecodeEntry(EntryEvents(item)) == Some(if item.subscription.None? then item.(ask := None) else item)
  {
    EntryLoopReadsItem(item);
    var f := EntryLoop(EntryEvents(item), NoFields).value;
    if item.subscription.Some? {
      var s := item.subscription.value;
      assert SubscriptionOf(SubscriptionName(s)) == Some(s);
      if item.ask.Some? {
        assert AskOf(AskName(item.ask.value)) == item.ask;
      }
    }
  }

  /** readEntry's loop over what addEntryRaw writes collects the item's attributes and groups. */
  lemma EntryLoopReadsItem(item: RosterItem)
    ensures EntryLoop(EntryEvents(item), NoFields) == Some(EntryFields(
      Some(item.jid), item.name,
      if item.subscription.Some? then Some(SubscriptionName(item.subscription.value)) else None,
      if item.ask.Some? then Some(AskName(item.ask.value)) else None,
      item.groups))
  {
    var evs := EntryEvents(item);
    var f := StartTagStep(NoFields, "item", EntryAttrs(item));
    assert evs[0] == StartTag("item", "", EntryAttrs(item), false);
    assert evs[1..] == GroupEvents(item.groups) + [EndTag("item")];
    assert EntryLoop(evs, NoFields) == EntryLoop(evs[1..], f);
    GroupEventsAddGroups(item.groups, [EndTag("item")], f);
    var g := f.(groups := f.groups + item.groups);
    assert EntryLoop([EndTag("item")], g) == Some(g);
    EntryAttrsRead(item);
    assert f.groups + item.groups == item.groups;
  }

  /** The entry file name of each item. */
  function EntryNames(base32: string -> string, items: seq<RosterItem>): (r: seq<string>)
    ensures |r| == |items| && forall i :: 0 <= i < |items| ==> r[i] == EntryFileName(base32, items[i].jid)
  {
    seq(|items|, i requires 0 <= i < |items| => EntryFileName(base32, items[i].jid))
  }

  /** The entry file content of each item. */
  function EntryTexts(xmlAttrib: (string, string) -> string, items: seq<RosterItem>): (r: seq<string>)
    ensures |r| == |items| && forall i :: 0 <= i < |items| ==> r[i] == EntryText(xmlAttrib, items[i])
  {
    seq(|items|, i requires 0 <= i < |items| => EntryText(xmlAttrib, items[i]))
  }

  /** File `name` is the same in `a` and `b`. */
  ghost predicate Unchanged(a: map<string, string>, b: map<string, string>, name: string)
  {
    (name in a <==> name in b) && (name in a ==> a[name] == b[name])
  }

  /** Every entry file of `after` was already in `before` or is one of `names`. */
  ghost predicate KnownEntries(before: map<string, string>, after: map<string, string>, names: seq<string>)
  {
    forall n :: n in after && IsEntryName(n) ==> n in before || n in names
  }

  /** Writing `names[k]` keeps the entry files accounted for by `names[..k + 1]`. */
  lemma KnownEntriesStep(start: map<string, string>, before: map<string, string>, after: map<string, string>,
                         names: seq<string>, k: nat)
    requires k < |names|
    requires KnownEntries(start, before, names[..k])
    requires forall n :: n != names[k] && n in after ==> n in before
    ensures KnownEntries(start, after, names[..k + 1])
  {
    assert names[..k + 1] == names[..k] + [names[k]];
  }

  /** The version file is never listed as an entry. */
  lemma VersionFileIsNoEntry()
    ensures !IsEntryName(VERSION_FILE_NAME)
  {
    assert VERSION_FILE_NAME[0] != ENTRY_PREFIX[0];
  }

  /** The items of the listed files that decode to one, in listing order; the others are skipped. */
  function DecodedItems(files: map<string, string>, parse: string -> seq<PullEvent>, names: seq<string>): seq<RosterItem>
    decreases |names|
  {
    if |names| == 0 then []
    else
      var last := names[|names| - 1];
      DecodedItems(files, parse, names[..|names| - 1])
      + (if last in files && DecodeEntry(parse(files[last])).Some? then [DecodeEntry(parse(files[last])).value] else [])
  }

  /** An item is among the decoded items iff one of the listed files decodes to it. */
  lemma {:induction false} DecodedItemsMembers(files: map<string, string>, parse: string -> seq<PullEvent>, names: seq<string>)
    ensures forall item :: item in DecodedItems(files, parse, names) <==>
      exists k :: 0 <= k < |names| && names[k] in files && DecodeEntry(parse(files[names[k]])) == Some(item)
    decreases |names|
  {
    if |names| > 0 {
      var init := names[..|names| - 1];
      DecodedItemsMembers(files, parse, init);
      forall item | exists k :: 0 <= k < |names| && names[k] in files && DecodeEntry(parse(files[names[k]])) == Some(item)
        ensures item in DecodedItems(files, parse, names)
      {
        var k :| 0 <= k < |names| && names[k] in files && DecodeEntry(parse(files[names[k]])) == Some(item);
        if k < |names| - 1 {
          assert init[k] == names[k];
        }
      }
      forall item | item in DecodedItems(files, parse, names)
        ensures exists k :: 0 <= k < |names| && names[k] in files && DecodeEntry(parse(files[names[k]])) == Some(item)
      {
        if item in DecodedItems(files, parse, init) {
          var k :| 0 <= k < |init| && init[k] in files && DecodeEntry(parse(files[init[k]])) == Some(item);
          assert names[k] == init[k];
        } else {
          assert names[|names| - 1] in files && DecodeEntry(parse(files[names[|names| - 1]])) == Some(item);
        }
      }
    }
  }

  // ---------------------------------------------------------------------
  // The store
  // ---------------------------------------------------------------------

  class DefaultRosterStore {
    const dir: Directory
    /** Base32Encoder.encode. */
    const base32: string -> string
    /** StringUtils.xmlAttrib. */
    const xmlAttrib: (string, string) -> string
    /** MXParser over a file's content: the events it reports before the input ends or it throws. */
    const parse: string -> seq<PullEvent>

    constructor (dir: Directory, base32: string -> string, xmlAttrib: (string, string) -> string,
                 parse: string -> seq<PullEvent>)
      ensures this.dir == dir && this.base32 == base32 && this.xmlAttrib == xmlAttrib && this.parse == parse
    {
      this.dir := dir;
      this.base32 := base32;
      this.xmlAttrib := xmlAttrib;
      this.parse := parse;
    }

    /**
     * getRosterVersion: what follows the first line of the version file;
     * null without the file or a newline in it. A file open accepts always
     * has one.
     */
    function GetRosterVersion(): (r: Option<string>)
      reads dir
      ensures VERSION_FILE_NAME !in dir.files ==> r.None?
      ensures r.Some? ==> VERSION_FILE_NAME in dir.files
      ensures VERSION_FILE_NAME in dir.files ==> r == VersionOf(dir.files[VERSION_FILE_NAME])
      ensures VERSION_FILE_NAME in dir.files && IsStoreFile(dir.files[VERSION_FILE_NAME]) ==> r.Some?
    {
      match dir.ReadFile(VERSION_FILE_NAME)
      case None => None
      case Some(s) =>
        assert IsStoreFile(s) ==> VersionOf(s).Some? by {
          if IsStoreFile(s) { StoreFileHasVersion(s); }
        }
        VersionOf(s)
    }

    /** getEntry: the item in the bare JID's entry file, or null when there is none or it does not decode. */
    function EntryOf(bareJid: string): (r: Option<RosterItem>)
      reads dir
      ensures EntryFileName(base32, bareJid) !in dir.files ==> r.None?
      ensures r.Some? ==> EntryFileName(base32, bareJid) in dir.files
      ensures EntryFileName(base32, bareJid) in dir.files ==> r == DecodeEntry(parse(dir.files[EntryFileName(base32, bareJid)]))
    {
      match dir.ReadFile(EntryFileName(base32, bareJid))
      case None => None
      case Some(s) => DecodeEntry(parse(s))
    }

    /** setRosterVersion: writes the version file, and only it. */
    method SetRosterVersion(version: string) returns (ok: bool)
      modifies dir
      ensures ok ==> dir.files == old(dir.files)[VERSION_FILE_NAME := VersionFileContent(version)]
      ensures ok ==> GetRosterVersion() == Some(version)
      ensures forall n :: n != VERSION_FILE_NAME ==> (n in dir.files <==> n in old(dir.files)) && (n in dir.files ==> dir.files[n] == old(dir.files)[n])
    {
      ok := dir.WriteFile(VERSION_FILE_NAME, VersionFileContent(version));
      VersionRoundTrip(version);
    }

    /** addEntryRaw: writes the item's entry file, and only it. */
    method AddEntryRaw(item: RosterItem) returns (ok: bool)
      modifies dir
      ensures ok ==> dir.files == old(dir.files)[EntryFileName(base32, item.jid) := EntryText(xmlAttrib, item)]
      ensures forall n :: n != EntryFileName(base32, item.jid) ==> (n in dir.files <==> n in old(dir.files)) && (n in dir.files ==> dir.files[n] == old(dir.files)[n])
    {
      ok := dir.WriteFile(EntryFileName(base32, item.jid), EntryText(xmlAttrib, item));
    }

    /**
     * addEntry: the entry, then the version; the version is not touched
     * unless the entry was written. When the parser reads the entry as it
     * was written, getEntry returns the item.
     */
    method AddEntry(item: RosterItem, version: string) returns (ok: bool)
      modifies dir
      ensures ok ==> dir.files == old(dir.files)[EntryFileName(base32, item.jid) := EntryText(xmlAttrib, item)]
                                                [VERSION_FILE_NAME := VersionFileContent(version)]
      ensures ok ==> GetRosterVersion() == Some(version)
      ensures ok && parse(EntryText(xmlAttrib, item)) == EntryEvents(item) ==>
        EntryOf(item.jid) == Some(if item.subscription.None? then item.(ask := None) else item)
      ensures VersionFile(dir.files) != VersionFile(old(dir.files)) ==>
        EntryFileName(base32, item.jid) in dir.files && dir.files[EntryFileName(base32, item.jid)] == EntryText(xmlAttrib, item)
      ensures forall n :: n != VERSION_FILE_NAME && n != EntryFileName(base32, item.jid) ==>
        (n in dir.files <==> n in old(dir.files)) && (n in dir.files ==> dir.files[n] == old(dir.files)[n])
    {
      ok := AddEntryRaw(item);
      if ok {
        ok := SetRosterVersion(version);
        EntryRoundTrip(item);
      }
    }

    /**
     * removeEntry: deletes the entry file, then writes the version; false,
     * with the version untouched, when the delete fails or is refused.
     */
    method RemoveEntry(bareJid: string, version: string) returns (ok: bool)
      modifies dir
      ensures ok ==> EntryFileName(base32, bareJid) in old(dir.files)
      ensures ok ==> dir.files == (old(dir.files) - {EntryFileName(base32, bareJid)})[VERSION_FILE_NAME := VersionFileContent(version)]
      ensures ok ==> GetRosterVersion() == Some(version) && EntryOf(bareJid).None?
      ensures EntryFileName(base32, bareJid) !in old(dir.files) ==> !ok && dir.files == old(dir.files)
      ensures VersionFile(dir.files) != VersionFile(old(dir.files)) ==>
        EntryFileName(base32, bareJid) in old(dir.files) && EntryFileName(base32, bareJid) !in dir.files
      ensures forall n :: n != VERSION_FILE_NAME && n != EntryFileName(base32, bareJid) ==>
        (n in dir.files <==> n in old(dir.files)) && (n in dir.files ==> dir.files[n] == old(dir.files)[n])
    {
      var name := EntryFileName(base32, bareJid);
      var deleted := dir.Delete(name);
      if !deleted.Deleted? {
        return false;
      }
      ok := SetRosterVersion(version);
    }

    /** resetEntries' first loop: deletes the entry files; false when a delete throws. */
    method DeleteEntries() returns (ok: bool)
      modifies dir
      ensures forall n :: n in dir.files ==> n in old(dir.files) && dir.files[n] == old(dir.files)[n]
      ensures forall n :: !IsEntryName(n) ==> Unchanged(old(dir.files), dir.files, n)
    {
      var listed := dir.ListEntryFiles();
      for i := 0 to |listed|
        invariant forall n :: n in dir.files ==> n in old(dir.files) && dir.files[n] == old(dir.files)[n]
        invariant forall n :: n !in listed ==> Unchanged(old(dir.files), dir.files, n)
      {
        var r := dir.Delete(listed[i]);
        if r.Denied? {
          return false;
        }
      }
      ok := true;
    }

    /** resetEntries' second loop: writes the items in order; false at the first failed write. */
    method WriteItems(items: seq<RosterItem>) returns (ok: bool)
      modifies dir
      ensures ok ==> AllWritten(dir.files, EntryNames(base32, items), EntryTexts(xmlAttrib, items), |items|)
      ensures KnownEntries(old(dir.files), dir.files, EntryNames(base32, items))
      ensures forall n :: !IsEntryName(n) ==> Unchanged(old(dir.files), dir.files, n)
    {
      ghost var names := EntryNames(base32, items);
      ghost var texts := EntryTexts(xmlAttrib, items);
      for k := 0 to |items|
        invariant AllWritten(dir.files, names, texts, k)
        invariant KnownEntries(old(dir.files), dir.files, names[..k])
        invariant forall n :: !IsEntryName(n) ==> Unchanged(old(dir.files), dir.files, n)
      {
        ghost var before := dir.files;
        var written := AddEntryRaw(items[k]);
        KnownEntriesStep(old(dir.files), before, dir.files, names, k);
        if !written {
          return false;
        }
        WrittenStep(before, dir.files, names, texts, k);
      }
      assert names[..|items|] == names;
      ok := true;
    }

    /**
     * resetEntries: deletes every entry file (false if that is refused),
     * writes the items (false at the first failed write), then the version.
     * The version is only touched once every item is written, and every
     * item's file holds the last item written to it.
     */
    method ResetEntries(items: seq<RosterItem>, version: string) returns (ok: bool)
      modifies dir
      ensures ok ==> GetRosterVersion() == Some(version) && VersionFile(dir.files) == Some(VersionFileContent(version))
      ensures ok ==> AllWritten(dir.files, EntryNames(base32, items), EntryTexts(xmlAttrib, items), |items|)
      ensures ok ==> KnownEntries(old(dir.files), dir.files, EntryNames(base32, items))
      ensures VersionFile(dir.files) != VersionFile(old(dir.files)) ==>
        AllWritten(dir.files, EntryNames(base32, items), EntryTexts(xmlAttrib, items), |items|)
      ensures forall n :: n != VERSION_FILE_NAME && !IsEntryName(n) ==> Unchanged(old(dir.files), dir.files, n)
    {
      VersionFileIsNoEntry();
      ok := DeleteEntries();
      if !ok {
        return false;
      }
      ok := WriteItems(items);
      if !ok {
        return false;
      }
      ghost var written := dir.files;
      ok := SetRosterVersion(version);
      ghost var names := EntryNames(base32, items);
      forall i | 0 <= i < |items|
        ensures Unchanged(written, dir.files, names[i])
      {
        assert IsEntryName(names[i]);
      }
      AllWrittenKept(written, dir.files, names, EntryTexts(xmlAttrib, items), |items|);
    }

    /**
     * readEntry over a file's content: the pull loop, then the checks.
     * Returns null where the content does not describe an item.
     */
    method ReadEntryContent(content: string) returns (item: Option<RosterItem>)
      ensures item == DecodeEntry(parse(content))
    {
      var parser := new PullParser(parse(content), 0);
      var fields := NoFields;
      var done := false;
      while !done
        invariant parser.Valid() && parser.events == parse(content)
        invariant !done ==> EntryLoop(parser.events[parser.pos..], fields) == EntryLoop(parser.events, NoFields)
        invariant done ==> EntryLoop(parser.events, NoFields) == Some(fields)
        decreases |parser.events| - parser.pos, !done
      {
        ghost var evs := parser.events[parser.pos..];
        var event := parser.Next();
        if event.Err? {
          return None;
        }
        assert evs[0] == event.value && evs[1..] == parser.events[parser.pos..];
        match event.value
        case StartTag(name, _, attrs, _) =>
          if name == "item" {
            fields := fields.(user := AttrValue(attrs, "user"), name := AttrValue(attrs, "name"),
                              subscriptionType := AttrValue(attrs, "type"), status := AttrValue(attrs, "status"));
          }
          if name == "group" {
            var group := AttrValue(attrs, "name");
            if group.Some? {
              fields := fields.(groups := fields.groups + [group.value]);
            }
          }
        case EndTag(name) =>
          if name == "item" {
            done := true;
          }
        case TextEvent(_) =>
      }
      if fields.user.None? {
        return None;
      }
      var subscription: Option<Subscription> := None;
      var ask: Option<Ask> := None;
      if fields.subscriptionType.Some? {
        subscription := SubscriptionOf(fields.subscriptionType.value);
        if subscription.None? {
          return None;
        }
        if fields.status.Some? {
          ask := AskOf(fields.status.value);
          if ask.None? {
            return None;
          }
        }
      }
      item := Some(RosterItem(fields.user.value, fields.name, subscription, ask, fields.groups));
    }

    /** readEntry: null for a missing file. */
    method ReadEntry(name: string) returns (item: Option<RosterItem>)
      ensures name !in dir.files ==> item.None?
      ensures name in dir.files ==> item == DecodeEntry(parse(dir.files[name]))
    {
      var content := dir.ReadFile(name);
      if content.None? {
        return None;
      }
      item := ReadEntryContent(content.value);
    }

    /** getEntry. */
    method GetEntry(bareJid: string) returns (item: Option<RosterItem>)
      ensures item == EntryOf(bareJid)
    {
      item := ReadEntry(EntryFileName(base32, bareJid));
    }

    /**
     * getEntries: in the order the entry files are listed, each listed
     * once, the item of every one that decodes to one, the others skipped;
     * never the version file. Two files with equal items give two copies.
     */
    method GetEntries() returns (entries: seq<RosterItem>, ghost names: seq<string>)
      ensures forall i, j :: 0 <= i < j < |names| ==> names[i] != names[j]
      ensures forall n :: n in names <==> n in dir.files && IsEntryName(n)
      ensures entries == DecodedItems(dir.files, parse, names)
      ensures forall item :: item in entries <==>
        exists n :: n in dir.files && IsEntryName(n) && DecodeEntry(parse(dir.files[n])) == Some(item)
    {
      var listed := dir.ListEntryFiles();
      names := listed;
      entries := [];
      for i := 0 to |listed|
        invariant entries == DecodedItems(dir.files, parse, listed[..i])
      {
        var entry := ReadEntry(listed[i]);
        assert listed[..i + 1][..i] == listed[..i];
        if entry.Some? {
          entries := entries + [entry.value];
        }
      }
      assert listed[..|listed|] == listed;
      DecodedItemsMembers(dir.files, parse, listed);
      forall item | exists n :: n in dir.files && IsEntryName(n) && DecodeEntry(parse(dir.files[n])) == Some(item)
        ensures item in entries
      {
        var n :| n in dir.files && IsEntryName(n) && DecodeEntry(parse(dir.files[n])) == Some(item);
        var k :| 0 <= k < |listed| && listed[k] == n;
      }
    }
  }

  /** init: a store whose version file holds the marker and an empty version; null when that write fails. */
  method Init(dir: Directory, base32: string -> string, xmlAttrib: (string, string) -> string,
              parse: string -> seq<PullEvent>) returns (store: Option<DefaultRosterStore>)
    modifies dir
    ensures store.Some? ==> store.value.dir == dir && dir.files == old(dir.files)[VERSION_FILE_NAME := VersionFileContent("")]
    ensures store.Some? ==> store.value.GetRosterVersion() == Some("")
    ensures forall n :: n != VERSION_FILE_NAME ==> (n in dir.files <==> n in old(dir.files)) && (n in dir.files ==> dir.files[n] == old(dir.files)[n])
  {
    var s := new DefaultRosterStore(dir, base32, xmlAttrib, parse);
    var ok := s.SetRosterVersion("");
    store := if ok then Some(s) else None;
  }

  /** open: a store over the directory iff its version file starts with the marker line; nothing is written. */
  method Open(dir: Directory, base32: string -> string, xmlAttrib: (string, string) -> string,
              parse: string -> seq<PullEvent>) returns (store: Option<DefaultRosterStore>)
    ensures store.Some? <==> VersionFile(dir.files).Some? && IsStoreFile(VersionFile(dir.files).value)
    ensures store.Some? ==> store.value.dir == dir && store.value.GetRosterVersion().Some?
  {
    var s := new DefaultRosterStore(dir, base32, xmlAttrib, parse);
    var content := dir.ReadFile(VERSION_FILE_NAME);
    if content.Some? && IsStoreFile(content.value) {
      StoreFileHasVersion(content.value);
      return Some(s);
    }
    return None;
  }
}
