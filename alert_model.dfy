/** Records handled by the alert engine (clinics, alerts, usage-log entries, toasts) and the
    few generic sequence operations the engine's store is built from. */
module AlertModel {
  import opened Optional

  /** One day in milliseconds; the length of a trial day. */
  const DAY_MS: int := 1000 * 60 * 60 * 24
  /** The recency window of the deduplication lookup: 24 hours in milliseconds. */
  const RECENT_WINDOW_MS: int := 24 * 60 * 60 * 1000
  /** A trial ending within this many days raises a warning. */
  const TRIAL_WARNING_DAYS: int := 7
  /** The report quota assumed when a clinic's quota is missing or zero. */
  const DEFAULT_REPORTS_ALLOWED: int := 10
  /** How long the toast of a newly created alert stays on screen. */
  const CRITICAL_TOAST_MS: int := 8000
  const WARNING_TOAST_MS: int := 6000

  /** A tenant. Missing numeric fields are `None`; dates are millisecond timestamps. */
  datatype Clinic = Clinic(
    id: string,
    name: string,
    email: string,
    isActive: bool,
    reportsUsed: Option<int>,
    reportsAllowed: Option<int>,
    subscriptionStatus: string,
    trialEndDate: Option<int>)

  datatype AlertType = Critical | Warning
  datatype Category = Usage | Trial
  datatype AlertStatus = Active | Resolved
  datatype Action = PurchaseReports | ConsiderPurchase | UpgradeSubscription

  /** The category-specific `data` payload of an alert. */
  datatype Payload =
    | LimitReached(reportsUsed: int, reportsAllowed: int)
    | LimitNear(reportsUsed: int, reportsAllowed: int, percentage: int)
    | TrialEnded(trialEndDate: int, daysExpired: int)
    | TrialEnding(trialEndDate: int, daysLeft: int)

  /** What a check hands to the deduplicator (the `alertData` argument of createAlert). */
  datatype AlertInput = AlertInput(
    alertType: AlertType,
    category: Category,
    title: string,
    message: string,
    action: Action,
    data: Payload)

  /** A stored alert record. `count` is `None` when the record carries no count. */
  datatype Alert = Alert(
    id: string,
    clinicId: string,
    alertType: AlertType,
    category: Category,
    title: string,
    message: string,
    action: Action,
    data: Payload,
    status: AlertStatus,
    acknowledged: bool,
    count: Option<int>,
    createdAt: int,
    updatedAt: int,
    acknowledgedAt: Option<int>,
    resolvedAt: Option<int>)

  /** The `action` tag and `details` of a usage-log entry; other writers' entries are `OtherAction`. */
  datatype UsageAction =
    | AlertCreated(alertType: AlertType, alertCategory: Category, alertTitle: string)
    | AlertAcknowledged(alertId: string, alertType: AlertType, alertCategory: Category)
    | AlertDismissed(alertId: string, alertType: AlertType, alertCategory: Category)
    | OtherAction(name: string)

  datatype UsageEvent = UsageEvent(clinicId: string, action: UsageAction, timestamp: int)

  /** A toast shown to the user: its text and how long it stays. */
  datatype Toast = Toast(message: string, durationMs: int)

  function TypeName(t: AlertType): string {
    match t
    case Critical => "critical"
    case Warning => "warning"
  }

  function CategoryName(c: Category): string {
    match c
    case Usage => "usage"
    case Trial => "trial"
  }

  /** The deterministic alert id `clinicId_category_type`. */
  function AlertKey(clinicId: string, category: Category, alertType: AlertType): string {
    clinicId + KeySuffix(category, alertType)
  }

  /** An alert id starts with its clinic's id followed by an underscore. */
  lemma AlertKeyStartsWithClinic(clinicId: string, category: Category, alertType: AlertType)
    ensures var r := AlertKey(clinicId, category, alertType);
      |r| > |clinicId| && r[..|clinicId|] == clinicId && r[|clinicId|] == '_'
  {
  }

  /** The suffix `_category_type` of an alert id. */
  function KeySuffix(category: Category, alertType: AlertType): string {
    "_" + CategoryName(category) + "_" + TypeName(alertType)
  }

  /** The four id suffixes are pairwise distinct, and differ already in length or last letter. */
  lemma SuffixShape(category: Category, alertType: AlertType)
    ensures |KeySuffix(category, alertType)| == (if alertType == Critical then 15 else 14)
    ensures KeySuffix(category, alertType)[1] == (if category == Usage then 'u' else 't')
    ensures KeySuffix(category, alertType)[|KeySuffix(category, alertType)| - 1]
         == (if alertType == Critical then 'l' else 'g')
  {
  }

  /** Two equal concatenations end in the same letter, and split the same way when their
      tails are equally long. */
  lemma ConcatCancel(a: string, b: string, c: string, d: string)
    requires a + b == c + d && |b| > 0 && |d| > 0
    ensures b[|b| - 1] == d[|d| - 1]
    ensures |b| == |d| ==> a == c && b == d
  {
    var k := a + b;
    assert k[|k| - 1] == b[|b| - 1];
    assert (c + d)[|k| - 1] == d[|d| - 1];
    if |b| == |d| {
      assert a == k[..|a|] && c == (c + d)[..|c|];
      assert b == k[|a|..] && d == (c + d)[|c|..];
    }
  }

  /** Distinct (clinic, category, type) triples give distinct ids. */
  lemma AlertKeyInjective(c1: string, cat1: Category, t1: AlertType, c2: string, cat2: Category, t2: AlertType)
    requires AlertKey(c1, cat1, t1) == AlertKey(c2, cat2, t2)
    ensures c1 == c2 && cat1 == cat2 && t1 == t2
  {
    var s1, s2 := KeySuffix(cat1, t1), KeySuffix(cat2, t2);
    SuffixShape(cat1, t1);
    SuffixShape(cat2, t2);
    ConcatCancel(c1, s1, c2, s2);
    assert t1 == t2;
    assert s1[1] == s2[1];
  }

  /** The `||` default of a count: a missing or zero count reads as 1. */
  function CountOrOne(count: Option<int>): (n: int)
    ensures n != 0
    ensures count.Some? && count.value != 0 ==> n == count.value
    ensures count.None? || count.value == 0 ==> n == 1
  {
    match count
    case Some(v) => if v == 0 then 1 else v
    case None => 1
  }

  /** Decimal rendering of an integer, as a template literal shows it. */
  function IntToString(n: int): (s: string)
    ensures |s| >= 1
    decreases if n < 0 then 1 - n else n
  {
    if n < 0 then "-" + IntToString(-n)
    else if n < 10 then [DigitChar(n)]
    else IntToString(n / 10) + [DigitChar(n % 10)]
  }

  function DigitChar(d: int): char
    requires 0 <= d < 10
  {
    "0123456789"[d]
  }

  /** Position of the first element satisfying `p` (the `find` of a JavaScript array). */
  function FindFirst<T>(s: seq<T>, p: T -> bool): (r: Option<nat>)
    ensures r.Some? ==> r.value < |s| && p(s[r.value])
    ensures r.Some? ==> forall j :: 0 <= j < r.value ==> !p(s[j])
    ensures r.None? <==> forall j :: 0 <= j < |s| ==> !p(s[j])
  {
    if |s| == 0 then None
    else if p(s[0]) then Some(0)
    else match FindFirst(s[1..], p)
      case Some(k) => Some(k + 1)
      case None => None
  }

  /** Replaces the first element satisfying `p` by its image under `f`; nothing else changes. */
  function UpdateFirst<T>(s: seq<T>, p: T -> bool, f: T -> T): (r: seq<T>)
    ensures |r| == |s|
  {
    match FindFirst(s, p)
    case Some(k) => s[k := f(s[k])]
    case None => s
  }

  /** The elements satisfying `p`, in order (the `filter` of a JavaScript array). */
  function Filter<T(!new)>(s: seq<T>, p: T -> bool): (r: seq<T>)
    ensures |r| <= |s|
    ensures forall x :: x in r <==> x in s && p(x)
    ensures forall j :: 0 <= j < |r| ==> p(r[j])
  {
    if |s| == 0 then []
    else
      var init := s[..|s| - 1];
      assert s == init + [s[|s| - 1]];
      Filter(init, p) + (if p(s[|s| - 1]) then [s[|s| - 1]] else [])
  }

  /** Filtering one more element of a prefix appends that element when it qualifies. */
  lemma FilterPrefixStep<T(!new)>(s: seq<T>, i: nat, p: T -> bool)
    requires i < |s|
    ensures Filter(s[..i + 1], p) == Filter(s[..i], p) + (if p(s[i]) then [s[i]] else [])
  {
    assert s[..i + 1][..i] == s[..i];
  }

  /** An element and its negation split a sequence: the two filters' lengths add up. */
  lemma {:induction false} FilterComplement<T(!new)>(s: seq<T>, p: T -> bool, q: T -> bool)
    requires forall x :: q(x) == !p(x)
    ensures |Filter(s, p)| + |Filter(s, q)| == |s|
  {
    if |s| > 0 {
      FilterComplement(s[..|s| - 1], p, q);
    }
  }

  /** Filtering twice is filtering once by both conditions. */
  lemma {:induction false} FilterFilter<T(!new)>(s: seq<T>, p: T -> bool, q: T -> bool, both: T -> bool)
    requires forall x :: both(x) == (p(x) && q(x))
    ensures Filter(Filter(s, p), q) == Filter(s, both)
  {
    if |s| > 0 {
      var n := |s| - 1;
      FilterFilter(s[..n], p, q, both);
      var inner := Filter(s[..n], p);
      var last := if p(s[n]) then [s[n]] else [];
      assert Filter(s, p) == inner + last;
      FilterOfAppend(inner, last, q);
    }
  }

  /** A filter distributes over concatenation. */
  lemma {:induction false} FilterOfAppend<T(!new)>(s: seq<T>, t: seq<T>, p: T -> bool)
    ensures Filter(s + t, p) == Filter(s, p) + Filter(t, p)
  {
    if |t| > 0 {
      var n := |t| - 1;
      assert (s + t)[..|s| + n] == s + t[..n];
      FilterOfAppend(s, t[..n], p);
    } else {
      assert s + t == s;
    }
  }

  /** A one-element sequence survives a filter exactly when its element qualifies. */
  lemma FilterSingleton<T(!new)>(x: T, p: T -> bool)
    ensures Filter([x], p) == if p(x) then [x] else []
  {
    assert [x][..0] == [];
  }

  /** Replacing one element changes a filter's length only by what that element contributed. */
  lemma FilterUpdateLength<T(!new)>(s: seq<T>, p: T -> bool, k: nat, y: T)
    requires k < |s|
    ensures |Filter(s[k := y], p)| + (if p(s[k]) then 1 else 0)
         == |Filter(s, p)| + (if p(y) then 1 else 0)
  {
    var before, after := s[..k], s[k + 1..];
    assert s == before + [s[k]] + after;
    assert s[k := y] == before + [y] + after;
    FilterOfAppend(before + [s[k]], after, p);
    FilterOfAppend(before, [s[k]], p);
    FilterOfAppend(before + [y], after, p);
    FilterOfAppend(before, [y], p);
    FilterSingleton(s[k], p);
    FilterSingleton(y, p);
  }
}
