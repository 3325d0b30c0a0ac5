/**
 * SmackConfiguration: the library-wide settings. The Java class keeps them
 * in static fields; here they are the fields of one object. Modelled: the
 * packet-reply timeout with its default and its lower bound, the
 * duplicate-free list of preferred SASL mechanisms, and the one-time
 * initialization every accessor runs first.
 */
module Configuration {
  import opened Wrappers

  const DEFAULT_PACKET_REPLY_TIMEOUT := 5000

  /** setPacketReplyTimeout's IllegalArgumentException. */
  datatype ConfigError = IllegalArgument

  /** No mechanism is listed twice. */
  predicate NoDuplicates(s: seq<string>)
  {
    forall i, j :: 0 <= i < j < |s| ==> s[i] != s[j]
  }

  /** addSaslMech on the list: appended only when absent. */
  function WithMech(mechs: seq<string>, mech: string): (r: seq<string>)
    ensures mech in mechs ==> r == mechs
    ensures mech !in mechs ==> r == mechs + [mech]
    ensures NoDuplicates(mechs) ==> NoDuplicates(r)
  {
    if mech in mechs then mechs else mechs + [mech]
  }

  /** addSaslMechs on the list: addSaslMech for each mechanism of the collection, in order. */
  function WithMechs(mechs: seq<string>, added: seq<string>): (r: seq<string>)
    decreases |added|
  {
    if |added| == 0 then mechs
    else WithMech(WithMechs(mechs, added[..|added| - 1]), added[|added| - 1])
  }

  /** Adding mechanisms keeps the list duplicate-free, keeps what was there in front, and lists exactly the old and the new ones. */
  lemma {:induction false} WithMechsProperties(mechs: seq<string>, added: seq<string>)
    requires NoDuplicates(mechs)
    ensures NoDuplicates(WithMechs(mechs, added))
    ensures mechs <= WithMechs(mechs, added)
    ensures forall m :: m in WithMechs(mechs, added) <==> m in mechs || m in added
    decreases |added|
  {
    if |added| > 0 {
      var init := added[..|added| - 1];
      WithMechsProperties(mechs, init);
      assert forall m :: m in added <==> m in init || m == added[|added| - 1];
    }
  }

  /** List.remove(Object): the first occurrence of `mech` is removed, if there is one. */
  function RemoveFirst(mechs: seq<string>, mech: string): (r: seq<string>)
    ensures mech !in mechs ==> r == mechs
    ensures mech in mechs ==> |r| == |mechs| - 1
    decreases |mechs|
  {
    if |mechs| == 0 then []
    else if mechs[0] == mech then mechs[1..]
    else [mechs[0]] + RemoveFirst(mechs[1..], mech)
  }

  /** List.removeAll: every occurrence of a mechanism in `gone` is removed, the rest keep their order. */
  function Without(mechs: seq<string>, gone: set<string>): (r: seq<string>)
    ensures forall m :: m in r <==> m in mechs && m !in gone
    decreases |mechs|
  {
    if |mechs| == 0 then []
    else if mechs[0] in gone then Without(mechs[1..], gone)
    else [mechs[0]] + Without(mechs[1..], gone)
  }

  /** `sub` is `s` with some elements dropped: the relative order of the rest is kept. */
  predicate IsSubsequence(sub: seq<string>, s: seq<string>)
    decreases |s|
  {
    if |sub| == 0 then true
    else if |s| == 0 then false
    else if sub[0] == s[0] then IsSubsequence(sub[1..], s[1..])
    else IsSubsequence(sub, s[1..])
  }

  /** removeAll keeps the order of what is left and keeps the list duplicate-free. */
  lemma {:induction false} WithoutKeepsOrder(mechs: seq<string>, gone: set<string>)
    ensures IsSubsequence(Without(mechs, gone), mechs)
    ensures NoDuplicates(mechs) ==> NoDuplicates(Without(mechs, gone))
    decreases |mechs|
  {
    if |mechs| > 0 {
      WithoutKeepsOrder(mechs[1..], gone);
      if NoDuplicates(mechs) {
        assert NoDuplicates(mechs[1..]) by {
          forall i, j | 0 <= i < j < |mechs[1..]| ensures mechs[1..][i] != mechs[1..][j] {
            assert mechs[1..][i] == mechs[i + 1] && mechs[1..][j] == mechs[j + 1];
          }
        }
      }
      if mechs[0] !in gone {
        var r := Without(mechs, gone);
        assert r[1..] == Without(mechs[1..], gone);
        if NoDuplicates(mechs) {
          assert mechs[0] !in mechs[1..];
          forall i, j | 0 <= i < j < |r| ensures r[i] != r[j] {
            if i == 0 {
              assert r[j] in Without(mechs[1..], gone);
            } else {
              assert r[i] == Without(mechs[1..], gone)[i - 1] && r[j] == Without(mechs[1..], gone)[j - 1];
            }
          }
        }
      }
    }
  }

  /** On a duplicate-free list, removing the first occurrence removes the mechanism altogether. */
  lemma {:induction false} RemoveFirstIsWithout(mechs: seq<string>, mech: string)
    requires NoDuplicates(mechs)
    ensures RemoveFirst(mechs, mech) == Without(mechs, {mech})
    decreases |mechs|
  {
    if |mechs| > 0 {
      assert NoDuplicates(mechs[1..]) by {
        forall i, j | 0 <= i < j < |mechs[1..]| ensures mechs[1..][i] != mechs[1..][j] {
          assert mechs[1..][i] == mechs[i + 1] && mechs[1..][j] == mechs[j + 1];
        }
      }
      RemoveFirstIsWithout(mechs[1..], mech);
      if mechs[0] == mech {
        assert mech !in mechs[1..];
        assert Without(mechs[1..], {mech}) == mechs[1..] by {
          WithoutNothing(mechs[1..], {mech});
        }
      }
    }
  }

  /** Removing mechanisms none of which is listed changes nothing. */
  lemma {:induction false} WithoutNothing(mechs: seq<string>, gone: set<string>)
    requires forall m :: m in mechs ==> m !in gone
    ensures Without(mechs, gone) == mechs
    decreases |mechs|
  {
    if |mechs| > 0 {
      WithoutNothing(mechs[1..], gone);
      assert [mechs[0]] + mechs[1..] == mechs;
    }
  }

  class SmackConfiguration {
    var packetReplyTimeout: int
    var defaultMechs: seq<string>
    var initialized: bool

    /** The list is kept free of duplicates. */
    predicate Valid()
      reads this
    {
      NoDuplicates(defaultMechs)
    }

    /** The static initial values: timeout 5000, no mechanisms, not initialized. */
    constructor ()
      ensures Valid()
      ensures packetReplyTimeout == DEFAULT_PACKET_REPLY_TIMEOUT && defaultMechs == [] && !initialized
    {
      packetReplyTimeout := DEFAULT_PACKET_REPLY_TIMEOUT;
      defaultMechs := [];
      initialized := false;
    }

    /** initialize: sets the flag the first time; a later call changes nothing. */
    method Initialize()
      modifies this
      ensures initialized
      ensures packetReplyTimeout == old(packetReplyTimeout) && defaultMechs == old(defaultMechs)
      ensures old(initialized) ==> unchanged(this)
    {
      if initialized {
        return;
      }
      initialized := true;
    }

    /** getPacketReplyTimeout: a stored value of 0 or less is replaced by 5000, which is returned. */
    method GetPacketReplyTimeout() returns (timeout: int)
      requires Valid()
      modifies this
      ensures Valid() && initialized && defaultMechs == old(defaultMechs)
      ensures timeout > 0
      ensures old(packetReplyTimeout) > 0 ==> timeout == old(packetReplyTimeout)
      ensures old(packetReplyTimeout) <= 0 ==> timeout == DEFAULT_PACKET_REPLY_TIMEOUT
      ensures packetReplyTimeout == timeout
    {
      Initialize();
      if packetReplyTimeout <= 0 {
        packetReplyTimeout := DEFAULT_PACKET_REPLY_TIMEOUT;
      }
      timeout := packetReplyTimeout;
    }

    /** setPacketReplyTimeout: refuses 0 or less and keeps the old value; otherwise stores it. */
    method SetPacketReplyTimeout(timeout: int) returns (r: Outcome<ConfigError>)
      requires Valid()
      modifies this
      ensures Valid() && initialized && defaultMechs == old(defaultMechs)
      ensures r.Fail? <==> timeout <= 0
      ensures r.Fail? ==> packetReplyTimeout == old(packetReplyTimeout)
      ensures r.Pass? ==> packetReplyTimeout == timeout
    {
      Initialize();
      if timeout <= 0 {
        return Fail(IllegalArgument);
      }
      packetReplyTimeout := timeout;
      r := Pass;
    }

    /** addSaslMech: appended only when not yet listed. */
    method AddSaslMech(mech: string)
      requires Valid()
      modifies this
      ensures Valid() && initialized && packetReplyTimeout == old(packetReplyTimeout)
      ensures defaultMechs == WithMech(old(defaultMechs), mech)
    {
      Initialize();
      if mech !in defaultMechs {
        defaultMechs := defaultMechs + [mech];
      }
    }

    /** addSaslMechs: addSaslMech for each mechanism in the collection's order. */
    method AddSaslMechs(mechs: seq<string>)
      requires Valid()
      modifies this
      ensures Valid() && initialized && packetReplyTimeout == old(packetReplyTimeout)
      ensures defaultMechs == WithMechs(old(defaultMechs), mechs)
    {
      Initialize();
      for i := 0 to |mechs|
        invariant Valid() && initialized && packetReplyTimeout == old(packetReplyTimeout)
        invariant defaultMechs == WithMechs(old(defaultMechs), mechs[..i])
      {
        AddSaslMech(mechs[i]);
        assert mechs[..i + 1][..i] == mechs[..i];
      }
      assert mechs[..|mechs|] == mechs;
    }

    /** removeSaslMech: List.remove drops the first occurrence, which on this list is the only one. */
    method RemoveSaslMech(mech: string)
      requires Valid()
      modifies this
      ensures Valid() && initialized && packetReplyTimeout == old(packetReplyTimeout)
      ensures defaultMechs == RemoveFirst(old(defaultMechs), mech)
      ensures defaultMechs == Without(old(defaultMechs), {mech})
    {
      Initialize();
      RemoveFirstIsWithout(defaultMechs, mech);
      WithoutKeepsOrder(defaultMechs, {mech});
      defaultMechs := RemoveFirst(defaultMechs, mech);
    }

    /** removeSaslMechs: every listed mechanism of the collection is removed, the others keep their order. */
    method RemoveSaslMechs(mechs: seq<string>)
      requires Valid()
      modifies this
      ensures Valid() && initialized && packetReplyTimeout == old(packetReplyTimeout)
      ensures defaultMechs == Without(old(defaultMechs), set m | m in mechs)
    {
      Initialize();
      WithoutKeepsOrder(defaultMechs, set m | m in mechs);
      defaultMechs := Without(defaultMechs, set m | m in mechs);
    }

    /** getSaslMechs: the current list (it does not run initialize). */
    function GetSaslMechs(): (r: seq<string>)
      reads this
      requires Valid()
      ensures NoDuplicates(r)
    {
      defaultMechs
    }
  }
}
