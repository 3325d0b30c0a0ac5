/**
 * Roster items as the Tinder library's Roster packet holds them (section 2.1
 * of RFC 6121): a contact's bare JID, an optional name, the subscription
 * state, a pending request, and the groups the contact is filed under.
 */
module RosterItems {
  import opened Wrappers

  /** Roster.Subscription; `Neither` is the enum constant `none`. */
  datatype Subscription = Neither | To | From | Both | Remove

  /** Roster.Ask: a pending subscribe or unsubscribe request. */
  datatype Ask = Subscribe | Unsubscribe

  /** Subscription.name(): the wire value of the `subscription` (here `type`) attribute. */
  function SubscriptionName(s: Subscription): string
  {
    match s
    case Neither => "none"
    case To => "to"
    case From => "from"
    case Both => "both"
    case Remove => "remove"
  }

  /** Subscription.valueOf: the constant with that name; None where Java throws IllegalArgumentException. */
  function SubscriptionOf(name: string): (r: Option<Subscription>)
    ensures r.Some? ==> SubscriptionName(r.value) == name
    ensures forall s :: SubscriptionName(s) == name ==> r == Some(s)
  {
    if name == "none" then Some(Neither)
    else if name == "to" then Some(To)
    else if name == "from" then Some(From)
    else if name == "both" then Some(Both)
    else if name == "remove" then Some(Remove)
    else None
  }

  /** Ask.toString() (the constant's name). */
  function AskName(a: Ask): string
  {
    match a
    case Subscribe => "subscribe"
    case Unsubscribe => "unsubscribe"
  }

  /** Ask.valueOf: the constant with that name; None where Java throws IllegalArgumentException. */
  function AskOf(name: string): (r: Option<Ask>)
    ensures r.Some? ==> AskName(r.value) == name
    ensures forall a :: AskName(a) == name ==> r == Some(a)
  {
    if name == "subscribe" then Some(Subscribe)
    else if name == "unsubscribe" then Some(Unsubscribe)
    else None
  }

  /** Every subscription and every ask reads back from the name written for it. */
  lemma NamesRoundTrip(s: Subscription, a: Ask)
    ensures SubscriptionOf(SubscriptionName(s)) == Some(s)
    ensures AskOf(AskName(a)) == Some(a)
  {
  }

  /** Roster.Item; Java's nulls are None. */
  datatype RosterItem = RosterItem(
    jid: string,
    name: Option<string>,
    subscription: Option<Subscription>,
    ask: Option<Ask>,
    groups: seq<string>)
}
