/** The threshold decisions of `checkClinicUsage` and `checkTrialStatus`: which alert, if any,
    a clinic's report usage and trial dates call for. The source computes a floating-point
    ratio and day count; here both are exact integer arithmetic. */
module AlertRules {
  import opened Optional
  import opened AlertModel

  /** `clinic.reportsUsed || 0` */
  function ReportsUsed(c: Clinic): (u: int)
    ensures c.reportsUsed.Some? ==> u == c.reportsUsed.value
    ensures c.reportsUsed.None? ==> u == 0
  {
    match c.reportsUsed
    case Some(v) => v
    case None => 0
  }

  /** `clinic.reportsAllowed || 10`: the quota, never zero, so the ratio is always defined. */
  function ReportsAllowed(c: Clinic): (a: int)
    ensures a != 0
    ensures c.reportsAllowed.Some? && c.reportsAllowed.value != 0 ==> a == c.reportsAllowed.value
    ensures c.reportsAllowed.None? || c.reportsAllowed.value == 0 ==> a == DEFAULT_REPORTS_ALLOWED
  {
    match c.reportsAllowed
    case Some(v) => if v == 0 then DEFAULT_REPORTS_ALLOWED else v
    case None => DEFAULT_REPORTS_ALLOWED
  }

  /** The exact comparison `u / a >= p / q` of rationals, for a nonzero `a` of either sign. */
  predicate RatioAtLeast(u: int, a: int, p: int, q: int)
    requires a != 0 && q > 0
  {
    if a > 0 then q * u >= p * a else q * u <= p * a
  }

  /** The usage ratio reaches the critical threshold 1.0. */
  predicate AtLimit(c: Clinic) {
    RatioAtLeast(ReportsUsed(c), ReportsAllowed(c), 1, 1)
  }

  /** The usage ratio reaches the warning threshold 0.8. */
  predicate NearLimit(c: Clinic) {
    RatioAtLeast(ReportsUsed(c), ReportsAllowed(c), 4, 5)
  }

  /** The floor of the rational `n / d`, for a divisor of either sign. */
  function FloorDiv(n: int, d: int): (r: int)
    requires d != 0
    ensures d > 0 ==> d * r <= n < d * r + d
    ensures d < 0 ==> d * r >= n > d * r + d
  {
    if d > 0 then n / d else (-n) / (-d)
  }

  /** `Math.round(u / a * 100)`: the integer nearest to `100 u / a`, halves rounded up. */
  function RoundedPercent(u: int, a: int): (r: int)
    requires a != 0
    ensures a > 0 ==> 2 * a * r - a <= 200 * u < 2 * a * r + a
    ensures a < 0 ==> 2 * a * r - a >= 200 * u > 2 * a * r + a
  {
    FloorDiv(200 * u + a, 2 * a)
  }

  lemma MulMono(d: int, x: int, y: int)
    requires d > 0 && x <= y
    ensures d * x <= d * y
  {
    assert d * y - d * x == d * (y - x);
  }

  /** A usage ratio in [0.8, 1.0) rounds to a percentage between 80 and 100. */
  lemma WarningPercentRange(u: int, a: int)
    requires a != 0
    requires RatioAtLeast(u, a, 4, 5) && !RatioAtLeast(u, a, 1, 1)
    ensures 80 <= RoundedPercent(u, a) <= 100
  {
    var r := RoundedPercent(u, a);
    if a > 0 {
      // 160 a <= 200 u < 2 a r + a
      assert 2 * a * (r - 80) > -a;
      if r < 80 {
        MulMono(2 * a, r - 80, -1);
      }
      // 2 a r - a <= 200 u <= 200 a - 200
      assert 2 * a * (r - 100) < a;
      if r > 100 {
        MulMono(2 * a, 1, r - 100);
      }
    } else {
      assert 2 * a * (r - 80) < -a;
      if r < 80 {
        MulMono(-2 * a, 1, 80 - r);
      }
      assert 2 * a * (r - 100) > a;
      if r > 100 {
        MulMono(-2 * a, 1, r - 100);
      }
    }
  }

  /** The alert `checkClinicUsage` hands to the deduplicator, if any: critical when the quota
      is used up, else a warning at 80% with the rounded percentage, else none. */
  function UsageAlert(c: Clinic): (r: Option<AlertInput>)
    ensures r.Some? ==> r.value.category == Usage
    ensures (r.Some? && r.value.alertType == Critical) <==> AtLimit(c)
    ensures (r.Some? && r.value.alertType == Warning) <==> NearLimit(c) && !AtLimit(c)
    ensures r.None? <==> !NearLimit(c) && !AtLimit(c)
    ensures ReportsAllowed(c) > 0 ==>
      ((r.Some? && r.value.alertType == Critical) <==> ReportsUsed(c) >= ReportsAllowed(c))
    ensures ReportsAllowed(c) > 0 ==>
      ((r.Some? && r.value.alertType == Warning) <==>
        5 * ReportsUsed(c) >= 4 * ReportsAllowed(c) && ReportsUsed(c) < ReportsAllowed(c))
    ensures r.Some? && r.value.alertType == Critical ==>
      r.value.data == LimitReached(ReportsUsed(c), ReportsAllowed(c)) && r.value.action == PurchaseReports &&
      r.value.title == "Report Limit Reached" &&
      r.value.message == "Clinic " + c.name + " has used all " + IntToString(ReportsAllowed(c)) + " allocated reports."
    ensures r.Some? && r.value.alertType == Warning ==>
      r.value.data.LimitNear? && r.value.action == ConsiderPurchase &&
      r.value.data.reportsUsed == ReportsUsed(c) && r.value.data.reportsAllowed == ReportsAllowed(c) &&
      r.value.data.percentage == RoundedPercent(ReportsUsed(c), ReportsAllowed(c)) &&
      80 <= r.value.data.percentage <= 100 &&
      r.value.title == "Report Limit Warning" &&
      r.value.message == "Clinic " + c.name + " has used " + IntToString(r.value.data.percentage)
        + "% of their allocated reports."
  {
    var u, a := ReportsUsed(c), ReportsAllowed(c);
    if AtLimit(c) then
      Some(AlertInput(Critical, Usage, "Report Limit Reached",
        "Clinic " + c.name + " has used all " + IntToString(a) + " allocated reports.",
        PurchaseReports, LimitReached(u, a)))
    else if NearLimit(c) then
      var pct := RoundedPercent(u, a);
      WarningPercentRange(u, a);
      Some(AlertInput(Warning, Usage, "Report Limit Warning",
        "Clinic " + c.name + " has used " + IntToString(pct) + "% of their allocated reports.",
        ConsiderPurchase, LimitNear(u, a, pct)))
    else
      None
  }

  /** Ten reports used of a quota of ten raise the critical usage alert, whose message names
      the quota "10". */
  lemma QuotaOfTenUsedUp(c: Clinic)
    requires c.reportsUsed == Some(10) && c.reportsAllowed == Some(10)
    ensures UsageAlert(c).Some? && UsageAlert(c).value.alertType == Critical
    ensures UsageAlert(c).value.data == LimitReached(10, 10)
    ensures UsageAlert(c).value.message == "Clinic " + c.name + " has used all 10 allocated reports."
  {
    assert ReportsUsed(c) == 10 && ReportsAllowed(c) == 10;
    assert AtLimit(c);
    assert IntToString(10) == "10" by {
      assert IntToString(1) == "1";
    }
  }

  /** `Math.ceil((end - now) / day)`: the number of started days until the trial ends. */
  function DaysLeft(end: int, now: int): (r: int)
    ensures (r - 1) * DAY_MS < end - now <= r * DAY_MS
  {
    -((now - end) / DAY_MS)
  }

  /** The clinic is on a trial with an end date set. */
  predicate OnDatedTrial(c: Clinic) {
    c.subscriptionStatus == "trial" && c.trialEndDate.Some?
  }

  /** The text of the trial warning; "day" is singular only for one day. */
  function TrialEndingMessage(name: string, daysLeft: int): string {
    "Trial for clinic " + name + " will expire in " + IntToString(daysLeft)
      + " day" + (if daysLeft > 1 then "s" else "") + "."
  }

  /** The alert `checkTrialStatus` hands to the deduplicator, if any: critical once the end
      date is reached, a warning when it is at most seven started days away, else none. */
  function TrialAlert(c: Clinic, now: int): (r: Option<AlertInput>)
    ensures r.Some? ==> OnDatedTrial(c) && r.value.category == Trial && r.value.action == UpgradeSubscription
    ensures (r.Some? && r.value.alertType == Critical) <==> OnDatedTrial(c) && c.trialEndDate.value <= now
    ensures (r.Some? && r.value.alertType == Warning) <==>
      OnDatedTrial(c) && now < c.trialEndDate.value <= now + TRIAL_WARNING_DAYS * DAY_MS
    ensures r.Some? && r.value.alertType == Critical ==>
      r.value.title == "Trial Expired" && r.value.message == "Trial period for clinic " + c.name + " has expired." &&
      r.value.data.TrialEnded? && r.value.data.trialEndDate == c.trialEndDate.value &&
      r.value.data.daysExpired >= 0 &&
      r.value.data.daysExpired * DAY_MS <= now - c.trialEndDate.value < (r.value.data.daysExpired + 1) * DAY_MS
    ensures r.Some? && r.value.alertType == Warning ==>
      r.value.title == "Trial Ending Soon" && r.value.data.TrialEnding? && r.value.data.trialEndDate == c.trialEndDate.value &&
      1 <= r.value.data.daysLeft <= TRIAL_WARNING_DAYS &&
      (r.value.data.daysLeft - 1) * DAY_MS < c.trialEndDate.value - now <= r.value.data.daysLeft * DAY_MS &&
      r.value.message == "Trial for clinic " + c.name + " will expire in "
        + IntToString(r.value.data.daysLeft) + (if r.value.data.daysLeft == 1 then " day." else " days.")
  {
    if OnDatedTrial(c) then
      var end := c.trialEndDate.value;
      var days := DaysLeft(end, now);
      if days <= 0 then
        Some(AlertInput(Critical, Trial, "Trial Expired",
          "Trial period for clinic " + c.name + " has expired.",
          UpgradeSubscription, TrialEnded(end, -days)))
      else if days <= TRIAL_WARNING_DAYS then
        Some(AlertInput(Warning, Trial, "Trial Ending Soon",
          TrialEndingMessage(c.name, days), UpgradeSubscription, TrialEnding(end, days)))
      else
        None
    else
      None
  }

  /** A trial that ended one day ago raises a critical alert one day overdue. */
  lemma TrialEndedYesterday(c: Clinic, now: int)
    requires OnDatedTrial(c) && c.trialEndDate.value == now - DAY_MS
    ensures TrialAlert(c, now).Some? && TrialAlert(c, now).value.alertType == Critical
    ensures TrialAlert(c, now).value.data.daysExpired == 1
  {
    assert DaysLeft(now - DAY_MS, now) == -1;
  }

  /** A trial ending in exactly three days raises a warning counting three days, "days" plural. */
  lemma TrialEndsInThreeDays(c: Clinic, now: int)
    requires OnDatedTrial(c) && c.trialEndDate.value == now + 3 * DAY_MS
    ensures TrialAlert(c, now).Some? && TrialAlert(c, now).value.alertType == Warning
    ensures TrialAlert(c, now).value.data.daysLeft == 3
    ensures TrialAlert(c, now).value.message == TrialEndingMessage(c.name, 3)
  {
    assert DaysLeft(now + 3 * DAY_MS, now) == 3;
  }

  /** The clinic after trial expiry: `subscriptionStatus` "expired", deactivated, nothing else changed. */
  function ExpiredClinic(c: Clinic): (e: Clinic)
    ensures e.id == c.id && !e.isActive && e.subscriptionStatus == "expired"
    ensures e.(subscriptionStatus := c.subscriptionStatus, isActive := c.isActive) == c
  {
    c.(subscriptionStatus := "expired", isActive := false)
  }
}
