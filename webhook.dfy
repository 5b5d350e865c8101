/** Access-expiry stacking in the payment webhook (src/app/api/webhook/route.ts,
    lines 33-51). Times are milliseconds since the epoch. */
module Webhook {
  import opened Wrappers
  import opened Percent
  import opened Text

  const HourMillis: int := 60 * 60 * 1000

  /** `parseInt(session.metadata?.hours || "6")`: missing or empty metadata means six. */
  function Hours(meta: Option<string>): (h: Option<int>)
    ensures meta.None? || meta == Some("") ==> h == Some(6)
    ensures meta.Some? && meta.value != "" ==> h == ParseInt(meta.value)
  {
    var s := if meta.None? || meta.value == "" then "6" else meta.value;
    assert ParseNat("6") == Some(6) by {
      assert DigitsValue("6") == DigitsValue("6"[..0]) * 10 + 6;
    }
    ParseInt(s)
  }

  /** Lines 48-51: add the hours to the current expiry while it lies in the future,
      otherwise to the present moment. */
  function NewExpiry(current: Option<int>, now: int, hours: int): (e: int)
    ensures current.Some? && current.value > now ==> e == current.value + hours * HourMillis
    ensures current.None? || current.value <= now ==> e == now + hours * HourMillis
    ensures e == Max(if current.Some? then current.value else now, now) + hours * HourMillis
  {
    var base := if current.Some? && current.value > now then current.value else now;
    base + hours * HourMillis
  }

  /** Two purchases, the second made while the first's access still runs, add up: the
      access ends as if both blocks of hours had been bought at once. */
  lemma PurchasesAdd(current: Option<int>, now: int, h1: int, later: int, h2: int)
    requires now <= later < NewExpiry(current, now, h1)
    ensures NewExpiry(Some(NewExpiry(current, now, h1)), later, h2) == NewExpiry(current, now, h1 + h2)
  {
    var base := if current.Some? && current.value > now then current.value else now;
    assert (h1 + h2) * HourMillis == h1 * HourMillis + h2 * HourMillis;
  }

  /** Purchased access never ends sooner than the hours bought from now, nor sooner
      than the access already held plus those hours. */
  lemma ExpiryBounds(current: Option<int>, now: int, hours: nat)
    ensures NewExpiry(current, now, hours) >= now + hours * HourMillis
    ensures current.Some? ==> NewExpiry(current, now, hours) >= current.value + hours * HourMillis
  {
  }

  /** The parts of a Stripe event the handler reads. */
  datatype Event = Event(kind: string, userId: Option<string>, hours: Option<string>, customer: string)

  /** What the handler does to the profiles: nothing, a profile update, or a failure
      (hours that do not parse give an invalid date, and rendering it throws). */
  datatype Outcome = Unchanged | SetExpiry(userId: string, expiresAt: int, customer: string) | Fails

  /** Lines 33-51, with the profile's stored expiry read as `current`. */
  function Handle(ev: Event, current: Option<int>, now: int): (o: Outcome)
    ensures ev.kind != "checkout.session.completed" ==> o == Unchanged
    ensures ev.userId.None? || ev.userId == Some("") ==> o == Unchanged
    ensures o.SetExpiry? ==> Some(o.userId) == ev.userId && o.customer == ev.customer
    ensures o.SetExpiry? ==> Hours(ev.hours).Some? && o.expiresAt == NewExpiry(current, now, Hours(ev.hours).value)
    ensures o.Unchanged? <==> ev.kind != "checkout.session.completed" || ev.userId.None? || ev.userId == Some("")
    ensures o.Fails? <==> ev.kind == "checkout.session.completed" && ev.userId.Some? && ev.userId.value != "" && Hours(ev.hours).None?
  {
    if ev.kind != "checkout.session.completed" || ev.userId.None? || ev.userId.value == "" then Unchanged
    else
      match Hours(ev.hours)
      case None => Fails
      case Some(h) => SetExpiry(ev.userId.value, NewExpiry(current, now, h), ev.customer)
  }
}
