/** The alert policy: the single `last_alert` slot of the state file, the
    cooldown test that decides whether a repeated alert is sent again, and
    the record `set_alert` writes. */
module Alerts {
  import opened Common
  import opened Text

  /** The seven alert types the monitor records. */
  datatype AlertKind =
    | FetchFailed
    | RateLimited
    | Forbidden
    | Unauthorized
    | CookieInvalid
    | HttpError
    | ParseFailed

  /** The `type` string stored for each alert kind. */
  function KindName(k: AlertKind): (s: string)
    ensures s != [] && forall i :: 0 <= i < |s| ==> 'a' <= s[i] <= 'z' || s[i] == '_'
  {
    match k
    case FetchFailed => "fetch_failed"
    case RateLimited => "rate_limited"
    case Forbidden => "forbidden"
    case Unauthorized => "unauthorized"
    case CookieInvalid => "cookie_invalid"
    case HttpError => "http_error"
    case ParseFailed => "parse_failed"
  }

  /** Distinct kinds are stored under distinct names, so reading the `type`
      back identifies the kind. */
  lemma KindNameInjective(a: AlertKind, b: AlertKind)
    ensures KindName(a) == KindName(b) <==> a == b
  {
  }

  /** The `last_alert` value read back from the state. `kind` and `at` are
      `None` when the key is missing or does not hold a string. */
  datatype StoredAlert = StoredAlert(kind: Option<string>, at: Option<string>, detail: string)

  /** The most characters of detail text a stored alert keeps. */
  const DetailLimit: nat := 200

  /** `max(0, alert_cooldown_minutes) * 60`. */
  function CooldownSeconds(minutes: int): (s: nat)
    ensures s % 60 == 0
    ensures minutes >= 0 ==> s == minutes * 60
    ensures minutes <= 0 ==> s == 0
  {
    Max(0, minutes) * 60
  }

  /** `should_send_alert`. `last` is the stored alert (`None` when there is
      none or it is not an object); `elapsed` is the whole number of seconds
      since its `at` time, `None` when `at` does not parse. Because the
      cooldown is a whole number of seconds, comparing the floor of the
      elapsed time with it decides exactly as the fractional value does. */
  function ShouldSendAlert(last: Option<StoredAlert>, kind: AlertKind, cooldown: int, elapsed: Option<int>): (r: bool)
    ensures !r ==> last.Some? && last.value.kind == Some(KindName(kind))
    ensures !r ==> last.value.at.Some? && elapsed.Some? && elapsed.value < cooldown
    ensures (last.Some? && last.value.kind == Some(KindName(kind)) && last.value.at.Some?
             && elapsed.Some? && elapsed.value < cooldown) ==> !r
  {
    if last.None? then true
    else if last.value.kind != Some(KindName(kind)) then true
    else if last.value.at.None? then true
    else if elapsed.None? then true
    else elapsed.value >= cooldown
  }

  /** `set_alert`'s record: the kind, the time of writing and the detail
      cut to the limit. */
  function NewAlert(kind: AlertKind, now: string, detail: string): (a: StoredAlert)
    ensures a.kind == Some(KindName(kind)) && a.at == Some(now)
    ensures |a.detail| <= DetailLimit
    ensures |NormalizeWhitespace(detail)| <= DetailLimit ==> a.detail == NormalizeWhitespace(detail)
    ensures |NormalizeWhitespace(detail)| > DetailLimit ==>
      && |a.detail| == DetailLimit
      && a.detail[DetailLimit - 1] == Ellipsis
      && a.detail[..DetailLimit - 1] == NormalizeWhitespace(detail)[..DetailLimit - 1]
  {
    StoredAlert(Some(KindName(kind)), Some(now), Truncate(detail, DetailLimit))
  }

  /** Right after an alert of kind `k` is recorded, another alert of the
      same kind is sent again exactly when the cooldown has run out, and an
      alert of any other kind is always sent. */
  lemma CooldownAfterRecord(k: AlertKind, now: string, detail: string, other: AlertKind, cooldown: int, elapsed: int)
    ensures ShouldSendAlert(Some(NewAlert(k, now, detail)), other, cooldown, Some(elapsed))
            <==> other != k || elapsed >= cooldown
  {
    KindNameInjective(k, other);
  }

  /** With no cooldown, an alert whose predecessor is not in the future is
      always sent. */
  lemma ZeroCooldownAlwaysSends(last: Option<StoredAlert>, kind: AlertKind, elapsed: Option<int>)
    requires elapsed.None? || elapsed.value >= 0
    ensures ShouldSendAlert(last, kind, CooldownSeconds(0), elapsed)
  {
  }

  /** A larger cooldown suppresses at least as much: whenever an alert is
      sent under the longer cooldown it is sent under the shorter one. */
  lemma CooldownMonotone(last: Option<StoredAlert>, kind: AlertKind, short: int, long: int, elapsed: Option<int>)
    requires short <= long
    ensures ShouldSendAlert(last, kind, long, elapsed) ==> ShouldSendAlert(last, kind, short, elapsed)
  {
  }
}
