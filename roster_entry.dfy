/**
 * RosterEntry: one contact of the user's roster (section 2.1 of RFC 6121),
 * with the name the user gave it, its subscription state and any pending
 * request. The roster's groups and the connection it sends roster pushes
 * on belong to other classes; they are modelled only as far as the entry
 * uses them: a group is a name and the set of users it contains, the
 * connection records what is sent.
 */
module RosterEntries {
  import opened Wrappers
  import opened RosterItems

  /** A RosterGroup: contains(entry) compares entries by user. */
  datatype RosterGroup = RosterGroup(name: string, users: set<string>)

  /** A roster packet of type set carrying one item. */
  datatype RosterPush = RosterSet(item: RosterItem)

  /** The roster the entry belongs to; only its groups, in roster order, are used. */
  class UserRoster {
    var groups: seq<RosterGroup>

    constructor (groups: seq<RosterGroup>)
      ensures this.groups == groups
    {
      this.groups := groups;
    }
  }

  /** The connection; only what is sent on it is recorded. */
  class Connection {
    var sent: seq<RosterPush>

    constructor ()
      ensures sent == []
    {
      sent := [];
    }
  }

  /** The names of the groups among `groups` that contain `user`, in order. */
  function GroupNamesOf(groups: seq<RosterGroup>, user: string): (r: seq<string>)
    ensures |r| <= |groups|
    ensures forall n :: n in r <==> exists g :: g in groups && user in g.users && g.name == n
    decreases |groups|
  {
    if |groups| == 0 then []
    else
      var init := GroupNamesOf(groups[..|groups| - 1], user);
      var last := groups[|groups| - 1];
      assert forall g :: g in groups <==> g in groups[..|groups| - 1] || g == last;
      if user in last.users then init + [last.name] else init
  }

  /** Java's int arithmetic: `x` reduced into [-2^31, 2^31). */
  function Int32(x: int): (r: int)
    ensures -0x8000_0000 <= r < 0x8000_0000
    ensures (r - x) % 0x1_0000_0000 == 0
  {
    (x + 0x8000_0000) % 0x1_0000_0000 - 0x8000_0000
  }

  /** The two values of `x` reduced into Java's int range agree when they differ by a multiple of 2^32. */
  lemma Int32Congruent(x: int, y: int)
    requires (x - y) % 0x1_0000_0000 == 0
    ensures Int32(x) == Int32(y)
  {
    var a, b := Int32(x), Int32(y);
    assert a - x == ((a - x) / 0x1_0000_0000) * 0x1_0000_0000;
    assert b - y == ((b - y) / 0x1_0000_0000) * 0x1_0000_0000;
    assert x - y == ((x - y) / 0x1_0000_0000) * 0x1_0000_0000;
  }

  /** The UTF-16 code units Java stores for one character: a character above U+FFFF is a surrogate pair. */
  function CodeUnits(c: char): (r: seq<int>)
    ensures 1 <= |r| <= 2
    ensures |r| == 1 <==> c as int < 0x1_0000
    ensures |r| == 1 ==> r[0] == c as int
    ensures |r| == 2 ==> 0xD800 <= r[0] < 0xDC00 && 0xDC00 <= r[1] < 0xE000
    ensures |r| == 2 ==> c as int == 0x1_0000 + (r[0] - 0xD800) * 0x400 + (r[1] - 0xDC00)
  {
    if c as int < 0x1_0000 then [c as int]
    else
      var v := c as int - 0x1_0000;
      [0xD800 + v / 0x400, 0xDC00 + v % 0x400]
  }

  /** A string's UTF-16 code units, in order: the `char`s a Java String holds. */
  function Utf16(s: string): (r: seq<int>)
    ensures |s| <= |r| <= 2 * |s|
    ensures forall i :: 0 <= i < |r| ==> 0 <= r[i] < 0x1_0000
    decreases |s|
  {
    if |s| == 0 then [] else Utf16(s[..|s| - 1]) + CodeUnits(s[|s| - 1])
  }

  /** The hash as String.hashCode documents it, without overflow: u[0]*31^(n-1) + ... + u[n-1]. */
  function PolynomialHash(u: seq<int>): int
    decreases |u|
  {
    if |u| == 0 then 0 else 31 * PolynomialHash(u[..|u| - 1]) + u[|u| - 1]
  }

  /** hashCode's loop `h = 31 * h + c` over the code units, in 32-bit arithmetic. */
  function UnitsHash(u: seq<int>): (r: int)
    ensures -0x8000_0000 <= r < 0x8000_0000
    decreases |u|
  {
    if |u| == 0 then 0 else Int32(31 * UnitsHash(u[..|u| - 1]) + u[|u| - 1])
  }

  /** Wrapping at every step of the loop gives the documented polynomial wrapped once. */
  lemma {:induction false} UnitsHashIsPolynomial(u: seq<int>)
    ensures UnitsHash(u) == Int32(PolynomialHash(u))
    decreases |u|
  {
    if |u| > 0 {
      var init := u[..|u| - 1];
      var p := PolynomialHash(init);
      UnitsHashIsPolynomial(init);
      var k := (Int32(p) - p) / 0x1_0000_0000;
      assert Int32(p) - p == k * 0x1_0000_0000;
      assert (31 * Int32(p) + u[|u| - 1]) - (31 * p + u[|u| - 1]) == (31 * k) * 0x1_0000_0000;
      Int32Congruent(31 * Int32(p) + u[|u| - 1], 31 * p + u[|u| - 1]);
    }
  }

  /**
   * String.hashCode over the string's UTF-16 code units: the documented
   * polynomial s[0]*31^(n-1) + ... + s[n-1], reduced into int range.
   */
  function StringHash(s: string): (r: int)
    ensures -0x8000_0000 <= r < 0x8000_0000
    ensures r == Int32(PolynomialHash(Utf16(s)))
  {
    UnitsHashIsPolynomial(Utf16(s));
    UnitsHash(Utf16(s))
  }

  /** A character outside the Basic Multilingual Plane hashes as its surrogate pair: 31 * 0xD83D + 0xDE00. */
  lemma SupplementaryCharacterHash()
    ensures Utf16("\U{1F600}") == [0xD83D, 0xDE00]
    ensures StringHash("\U{1F600}") == 1772899
  {
    assert "\U{1F600}"[..0] == "";
    assert Utf16("\U{1F600}") == [] + CodeUnits('\U{1F600}');
    assert PolynomialHash([0xD83D, 0xDE00]) == 31 * PolynomialHash([0xD83D]) + 0xDE00;
    assert PolynomialHash([0xD83D]) == 31 * PolynomialHash([]) + 0xD83D;
  }

  /** The group names as toString writes them: separated by ", ". */
  function Join(names: seq<string>): (r: string)
    ensures |names| == 1 ==> r == names[0]
    decreases |names|
  {
    if |names| == 0 then ""
    else if |names| == 1 then names[0]
    else Join(names[..|names| - 1]) + ", " + names[|names| - 1]
  }

  /** toString: "name: " when there is a name, the user, then " [g1, g2, ...]" when there are groups. */
  function Describe(name: Option<string>, user: string, groupNames: seq<string>): (r: string)
    ensures name.Some? ==> name.value + ": " <= r
    ensures name.None? ==> user <= r
    ensures |groupNames| == 0 ==> |user| <= |r| && r[|r| - |user|..] == user
    ensures |groupNames| > 0 ==> 0 < |r| && r[|r| - 1] == ']'
  {
    var head := if name.Some? then name.value + ": " + user else user;
    if |groupNames| == 0 then head else head + " [" + Join(groupNames) + "]"
  }

  class RosterEntry {
    const user: string
    var name: Option<string>
    var subscription: Option<Subscription>
    var ask: Option<Ask>
    const roster: UserRoster
    const connection: Connection

    constructor (user: string, name: Option<string>, subscription: Option<Subscription>, ask: Option<Ask>,
                 roster: UserRoster, connection: Connection)
      ensures this.user == user && this.name == name && this.subscription == subscription && this.ask == ask
      ensures this.roster == roster && this.connection == connection
    {
      this.user := user;
      this.name := name;
      this.subscription := subscription;
      this.ask := ask;
      this.roster := roster;
      this.connection := connection;
    }

    /** getGroupNames: the names of the roster's groups that contain this entry, in roster order. */
    method GetGroupNames() returns (names: seq<string>)
      ensures names == GroupNamesOf(roster.groups, user)
    {
      var groups := roster.groups;
      names := [];
      for i := 0 to |groups|
        invariant names == GroupNamesOf(groups[..i], user)
      {
        assert groups[..i + 1][..i] == groups[..i];
        if user in groups[i].users {
          names := names + [groups[i].name];
        }
      }
      assert groups[..|groups|] == groups;
    }

    /**
     * setName: a non-null name equal to the current one changes nothing and
     * sends nothing; any other name is stored and one roster set carrying
     * the entry with the new name and its groups is sent.
     */
    method SetName(n: Option<string>)
      modifies this, connection
      ensures n.Some? && n == old(name) ==> name == old(name) && connection.sent == old(connection.sent)
      ensures !(n.Some? && n == old(name)) ==>
        && name == n
        && connection.sent == old(connection.sent) + [RosterSet(RosterItem(user, n, subscription, ask, GroupNamesOf(roster.groups, user)))]
      ensures subscription == old(subscription) && ask == old(ask)
      ensures roster.groups == old(roster.groups)
    {
      if n.Some? && n == name {
        return;
      }
      name := n;
      var groupNames := GetGroupNames();
      connection.sent := connection.sent + [RosterSet(RosterItem(user, n, subscription, ask, groupNames))];
    }

    /** updateState: name, subscription and pending request are replaced; nothing is sent. */
    method UpdateState(n: Option<string>, s: Option<Subscription>, a: Option<Ask>)
      modifies this
      ensures name == n && subscription == s && ask == a
      ensures connection.sent == old(connection.sent)
    {
      name := n;
      subscription := s;
      ask := a;
    }

    /** equals: the same object, or an entry for the same user. */
    predicate Equals(other: RosterEntry?)
      ensures Equals(other) <==> other != null && user == other.user
    {
      this == other || (other != null && user == other.user)
    }

    /** hashCode: the user's String.hashCode, the polynomial over its UTF-16 code units in int range. */
    function HashCode(): (r: int)
      ensures -0x8000_0000 <= r < 0x8000_0000
      ensures r == Int32(PolynomialHash(Utf16(user)))
    {
      StringHash(user)
    }

    /** equalsDeep: the same object, or an entry with equal name, request, subscription and user. */
    predicate EqualsDeep(other: RosterEntry?)
      reads this, other
      ensures EqualsDeep(other) <==>
        other != null && name == other.name && ask == other.ask && subscription == other.subscription && user == other.user
    {
      if this == other then true
      else if other == null then false
      else name == other.name && ask == other.ask && subscription == other.subscription && user == other.user
    }

    /** toString, built piece by piece as the Java method appends. */
    method ToString() returns (s: string)
      ensures s == Describe(name, user, GroupNamesOf(roster.groups, user))
    {
      if name.Some? {
        s := name.value + ": " + user;
      } else {
        s := user;
      }
      var names := GetGroupNames();
      if |names| > 0 {
        var joined := JoinNames(names);
        s := s + " [" + joined + "]";
      }
    }
  }

  /** The loop of toString that appends the group names after the first, each after ", ". */
  method JoinNames(names: seq<string>) returns (s: string)
    requires |names| > 0
    ensures s == Join(names)
  {
    s := names[0];
    for i := 1 to |names|
      invariant s == Join(names[..i])
    {
      assert names[..i + 1][..i] == names[..i];
      s := s + ", " + names[i];
    }
    assert names[..|names|] == names;
  }

  /** equals and hashCode agree: entries for the same user hash alike, whatever else differs. */
  lemma EqualEntriesHashAlike(a: RosterEntry, b: RosterEntry)
    requires a.Equals(b)
    ensures a.HashCode() == b.HashCode()
  {
  }

  /** Deep equality implies equality. */
  lemma EqualsDeepImpliesEquals(a: RosterEntry, b: RosterEntry?)
    requires a.EqualsDeep(b)
    ensures a.Equals(b)
  {
  }

  /** Equality of entries is an equivalence relation. */
  lemma EqualsIsEquivalence(a: RosterEntry, b: RosterEntry, c: RosterEntry)
    ensures a.Equals(a)
    ensures a.Equals(b) ==> b.Equals(a)
    ensures a.Equals(b) && b.Equals(c) ==> a.Equals(c)
  {
  }
}
