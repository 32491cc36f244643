/**
 * How long ago an account last logged in. The clock reading `now` is a
 * parameter, time is whole minutes, and the one-decimal rendering of the
 * hours is an abstract `fmt` from elapsed minutes to text.
 */
module AccountExtensions {
  import opened Wrappers
  import opened Entities

  const UnknownHours: string := "未知"

  /**
   * `GetLoginHours`: the time elapsed since the last login, none when no
   * login was recorded. Nothing is clamped, so a login stamped after `now`
   * gives a negative value.
   */
  function GetLoginHours(account: Account, now: int): (r: Option<int>)
    ensures r.None? <==> account.lastLoginAt.None?
    ensures account.lastLoginAt.Some? && account.lastLoginAt.value > now ==> r.Some? && r.value < 0
  {
    match account.lastLoginAt
    case None => None
    case Some(at) => Some(now - at)
  }

  /** The elapsed time grows exactly with the clock, and is measured from the login itself. */
  lemma LoginHoursFollowClock(account: Account, now: int, later: int)
    requires account.lastLoginAt.Some?
    ensures GetLoginHours(account, later).value == GetLoginHours(account, now).value + (later - now)
    ensures GetLoginHours(account, account.lastLoginAt.value) == Some(0)
  {
  }

  /** Text a numeric formatter produces: digits, a sign and a decimal point, never empty. */
  predicate NumericText(s: string) {
    s != [] && forall i :: 0 <= i < |s| ==> s[i] in "0123456789-."
  }

  /** `GetLoginHoursFormatted`: "未知" without a recorded login, else the formatted elapsed time. */
  function GetLoginHoursFormatted(account: Account, now: int, fmt: int -> string): (r: string)
    ensures account.lastLoginAt.None? ==> r == UnknownHours
    ensures account.lastLoginAt.Some? ==> r == fmt(GetLoginHours(account, now).value)
  {
    match account.lastLoginAt
    case None => UnknownHours
    case Some(at) => fmt(now - at)
  }

  /** With a numeric formatter, "未知" appears exactly when no login was recorded. */
  lemma FormattedUnknownIffUnset(account: Account, now: int, fmt: int -> string)
    requires forall m :: NumericText(fmt(m))
    ensures GetLoginHoursFormatted(account, now, fmt) == UnknownHours <==> account.lastLoginAt.None?
  {
    if account.lastLoginAt.Some? {
      var m := now - account.lastLoginAt.value;
      assert NumericText(fmt(m));
      assert fmt(m)[0] in "0123456789-.";
      assert UnknownHours[0] !in "0123456789-.";
    }
  }
}
