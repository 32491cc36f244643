/**
 * The login-age risk check: an account is risky for sensitive operations
 * until 24 hours have passed since its last recorded login, and always
 * when no login was recorded. Only the last login counts; no other
 * timestamp stands in for it. Time is whole minutes and `now` a parameter;
 * `fmt` renders an elapsed time in minutes as the one-decimal hour text.
 */
module AccountRisk {
  import opened Wrappers
  import Text
  import Seqs
  import opened Entities
  import opened AccountExtensions

  const RiskThresholdMinutes: int := 24 * 60

  /** Why the single-account check decided as it did. */
  datatype RiskReason =
    | NoLoginTime
    | LoginTooShort(elapsed: int, remaining: int)
    | LoginSatisfied(elapsed: int)

  /** The decision of the single-account check, before its messages are written. */
  function Classify(account: Account, now: int): (r: RiskReason)
    ensures r.NoLoginTime? <==> account.lastLoginAt.None?
    ensures r.LoginTooShort? ==>
      && account.lastLoginAt.Some?
      && r.elapsed == now - account.lastLoginAt.value
      && r.elapsed < RiskThresholdMinutes
      && r.remaining == RiskThresholdMinutes - r.elapsed
      && r.remaining > 0
    ensures r.LoginSatisfied? ==>
      account.lastLoginAt.Some? && r.elapsed == now - account.lastLoginAt.value && r.elapsed >= RiskThresholdMinutes
  {
    match account.lastLoginAt
    case None => NoLoginTime
    case Some(at) =>
      var loginHours := now - at;
      if loginHours < RiskThresholdMinutes then LoginTooShort(loginHours, RiskThresholdMinutes - loginHours)
      else LoginSatisfied(loginHours)
  }

  predicate IsRisky(account: Account, now: int) {
    !Classify(account, now).LoginSatisfied?
  }

  datatype RiskCheckResult = RiskCheckResult(isRisky: bool, message: string, detailedMessage: string)

  const NoLoginMessage: string := "账号未记录登录时间"
  const NoLoginDetail: string := "该账号尚未记录登录时间（可能是刚导入的新账号），建议等待 24 小时后再进行敏感操作"
  const SatisfiedMessage: string := "账号登录时长已满足要求"

  /** `CheckLoginDuration`: risky without a login or under the threshold, with the messages for each case. */
  function CheckLoginDuration(account: Account, now: int, fmt: int -> string): (r: RiskCheckResult)
    ensures r.isRisky <==> IsRisky(account, now)
    ensures account.lastLoginAt.None? ==> r.isRisky && r.message == NoLoginMessage && r.detailedMessage == NoLoginDetail
    ensures account.lastLoginAt.Some? ==>
      (r.isRisky <==> now - account.lastLoginAt.value < RiskThresholdMinutes)
    ensures !r.isRisky ==> r.message == SatisfiedMessage
    ensures account.lastLoginAt.Some? && now - account.lastLoginAt.value < RiskThresholdMinutes ==>
      var elapsed := now - account.lastLoginAt.value;
      && r.message == "账号登录时长不足 24 小时（当前：" + fmt(elapsed) + " 小时）"
      && r.detailedMessage == "建议等待 " + fmt(RiskThresholdMinutes - elapsed) + " 小时后再进行敏感操作，以降低被 Telegram 风控的风险"
    ensures account.lastLoginAt.Some? && now - account.lastLoginAt.value >= RiskThresholdMinutes ==>
      r.detailedMessage == "当前登录时长：" + fmt(now - account.lastLoginAt.value) + " 小时"
  {
    match Classify(account, now)
    case NoLoginTime => RiskCheckResult(true, NoLoginMessage, NoLoginDetail)
    case LoginTooShort(loginHours, remainingHours) =>
      RiskCheckResult(true,
        "账号登录时长不足 24 小时（当前：" + fmt(loginHours) + " 小时）",
        "建议等待 " + fmt(remainingHours) + " 小时后再进行敏感操作，以降低被 Telegram 风控的风险")
    case LoginSatisfied(loginHours) =>
      RiskCheckResult(false, SatisfiedMessage, "当前登录时长：" + fmt(loginHours) + " 小时")
  }

  /** For a fixed last login, time passing never makes a safe account risky again. */
  lemma SafeStaysSafe(account: Account, now: int, later: int)
    requires now <= later
    requires !IsRisky(account, now)
    ensures !IsRisky(account, later)
  {
  }

  /** A login stamped in the future keeps the account risky, with more than the full threshold to wait. */
  lemma FutureLoginIsRisky(account: Account, now: int)
    requires account.lastLoginAt.Some? && account.lastLoginAt.value > now
    ensures IsRisky(account, now)
    ensures Classify(account, now).remaining > RiskThresholdMinutes
  {
  }

  function RiskyAt(now: int): Account -> bool {
    (a: Account) => IsRisky(a, now)
  }

  function SafeAt(now: int): Account -> bool {
    (a: Account) => !IsRisky(a, now)
  }

  datatype BatchRiskCheckResult = BatchRiskCheckResult(
    totalCount: int,
    riskyCount: int,
    safeCount: int,
    riskyAccounts: seq<Account>,
    safeAccounts: seq<Account>,
    hasRiskyAccounts: bool)

  /**
   * `CheckBatchAccounts`: every account goes to the risky or the safe
   * list according to the single-account check, keeping the input order,
   * and the counts are those of the lists.
   */
  method CheckBatchAccounts(accounts: seq<Account>, now: int, fmt: int -> string) returns (r: BatchRiskCheckResult)
    ensures r.riskyAccounts == Seqs.Filter(accounts, RiskyAt(now))
    ensures r.safeAccounts == Seqs.Filter(accounts, SafeAt(now))
    ensures multiset(r.riskyAccounts) + multiset(r.safeAccounts) == multiset(accounts)
    ensures forall i :: 0 <= i < |r.riskyAccounts| ==> IsRisky(r.riskyAccounts[i], now)
    ensures forall i :: 0 <= i < |r.safeAccounts| ==> !IsRisky(r.safeAccounts[i], now)
    ensures r.totalCount == |accounts| == r.riskyCount + r.safeCount
    ensures r.riskyCount == |r.riskyAccounts| && r.safeCount == |r.safeAccounts|
    ensures r.hasRiskyAccounts <==> r.riskyCount > 0
  {
    var riskyAccounts: seq<Account> := [];
    var safeAccounts: seq<Account> := [];
    var i := 0;
    while i < |accounts|
      invariant 0 <= i <= |accounts|
      invariant riskyAccounts == Seqs.Filter(accounts[..i], RiskyAt(now))
      invariant safeAccounts == Seqs.Filter(accounts[..i], SafeAt(now))
    {
      var account := accounts[i];
      var check := CheckLoginDuration(account, now, fmt);
      assert accounts[..i + 1] == accounts[..i] + [account];
      Seqs.FilterSnoc(accounts[..i], account, RiskyAt(now));
      Seqs.FilterSnoc(accounts[..i], account, SafeAt(now));
      if check.isRisky {
        riskyAccounts := riskyAccounts + [account];
      } else {
        safeAccounts := safeAccounts + [account];
      }
      i := i + 1;
    }
    assert accounts[..i] == accounts;
    Seqs.FilterPartition(accounts, RiskyAt(now), SafeAt(now));
    r := BatchRiskCheckResult(
      |accounts|,
      |riskyAccounts|,
      |safeAccounts|,
      riskyAccounts,
      safeAccounts,
      |riskyAccounts| > 0);
  }

  const AllSatisfiedSummary: string := "所有账号均已满足登录时长要求"
  const RiskySummaryPrefix: string := "以下账号登录时长不足 24 小时："
  const EntrySeparator: char := '、'

  /** One risky account in the summary: its phone, with the hours in brackets when a login was recorded. */
  function SummaryEntry(account: Account, now: int, fmt: int -> string): (e: string)
    ensures account.phone <= e
    ensures e == account.phone <==> GetLoginHours(account, now).None?
    ensures GetLoginHours(account, now).Some? ==>
      e == account.phone + "(" + fmt(GetLoginHours(account, now).value) + "h)"
  {
    var hours := GetLoginHours(account, now);
    if hours.Some? then account.phone + "(" + fmt(hours.value) + "h)" else account.phone
  }

  function SummaryEntries(accounts: seq<Account>, now: int, fmt: int -> string): (es: seq<string>)
    ensures |es| == |accounts| && forall i :: 0 <= i < |accounts| ==> es[i] == SummaryEntry(accounts[i], now, fmt)
  {
    seq(|accounts|, i requires 0 <= i < |accounts| => SummaryEntry(accounts[i], now, fmt))
  }

  /** `GetRiskySummary`. */
  function GetRiskySummary(result: BatchRiskCheckResult, now: int, fmt: int -> string): (s: string)
    ensures result.riskyCount == 0 ==> s == AllSatisfiedSummary
    ensures result.riskyCount != 0 ==> RiskySummaryPrefix <= s
  {
    if result.riskyCount == 0 then AllSatisfiedSummary
    else RiskySummaryPrefix + Text.Join([EntrySeparator], SummaryEntries(result.riskyAccounts, now, fmt))
  }

  /**
   * The summary of a batch with risky accounts lists one entry per risky
   * account, in order: splitting the text after the prefix on "、" gives
   * back the entries, when no phone and no hour text contains "、".
   */
  lemma SummaryListsRiskyAccounts(result: BatchRiskCheckResult, now: int, fmt: int -> string)
    requires result.riskyCount != 0 && result.riskyAccounts != []
    requires forall i :: 0 <= i < |result.riskyAccounts| ==> EntrySeparator !in result.riskyAccounts[i].phone
    requires forall m :: EntrySeparator !in fmt(m)
    ensures var s := GetRiskySummary(result, now, fmt);
      Text.Split(EntrySeparator, s[|RiskySummaryPrefix|..]) == SummaryEntries(result.riskyAccounts, now, fmt)
  {
    var es := SummaryEntries(result.riskyAccounts, now, fmt);
    forall i | 0 <= i < |es| ensures EntrySeparator !in es[i] {
      var a := result.riskyAccounts[i];
      if GetLoginHours(a, now).Some? {
        var h := fmt(GetLoginHours(a, now).value);
        assert EntrySeparator !in h;
        assert es[i] == a.phone + "(" + h + "h)";
      }
    }
    Text.SplitJoin(EntrySeparator, es);
    var s := GetRiskySummary(result, now, fmt);
    assert s[|RiskySummaryPrefix|..] == Text.Join([EntrySeparator], es);
  }

  /** The batch has no risky account exactly when every input account is safe. */
  lemma NoRiskyIffAllSafe(accounts: seq<Account>, now: int)
    ensures Seqs.Filter(accounts, RiskyAt(now)) == [] <==> forall i :: 0 <= i < |accounts| ==> !IsRisky(accounts[i], now)
  {
    var risky := Seqs.Filter(accounts, RiskyAt(now));
    if risky != [] {
      assert RiskyAt(now)(risky[0]);
      var k :| 0 <= k < |accounts| && accounts[k] == risky[0];
      assert IsRisky(accounts[k], now);
    } else {
      Seqs.FilterKeeps(accounts, RiskyAt(now));
      forall i | 0 <= i < |accounts| ensures !IsRisky(accounts[i], now) {
        assert RiskyAt(now)(accounts[i]) == IsRisky(accounts[i], now);
      }
    }
  }

  /** The fixed "all satisfied" sentence is the summary exactly when no account is counted risky. */
  lemma AllSatisfiedIffNoRisky(result: BatchRiskCheckResult, now: int, fmt: int -> string)
    ensures GetRiskySummary(result, now, fmt) == AllSatisfiedSummary <==> result.riskyCount == 0
  {
    if result.riskyCount != 0 {
      var s := GetRiskySummary(result, now, fmt);
      assert s[0] == RiskySummaryPrefix[0];
    }
  }
}
