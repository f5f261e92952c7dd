/** The read-only views of the alert table: the active list sorted newest first, a clinic's
    alerts, and the counts behind `getAlertStats`. */
module AlertQueries {
  import opened Optional
  import opened AlertModel
  import opened AlertStore

  function IsActive(): Alert -> bool {
    (a: Alert) => a.status == Active
  }

  function OfType(t: AlertType): Alert -> bool {
    (a: Alert) => a.alertType == t
  }

  function InCategory(c: Category): Alert -> bool {
    (a: Alert) => a.category == c
  }

  function OfClinic(clinicId: string): Alert -> bool {
    (a: Alert) => a.clinicId == clinicId
  }

  function ActiveOfClinic(clinicId: string): Alert -> bool {
    (a: Alert) => a.clinicId == clinicId && a.status == Active
  }

  /** The alerts whose status is active, in table order. */
  function ActiveAlerts(alerts: seq<Alert>): (r: seq<Alert>)
    ensures forall a :: a in r <==> a in alerts && a.status == Active
  {
    Filter(alerts, IsActive())
  }

  /** Ordered by `createdAt`, newest first. */
  predicate NewestFirst(s: seq<Alert>) {
    forall i, j :: 0 <= i < j < |s| ==> s[i].createdAt >= s[j].createdAt
  }

  /** Inserts `x` before the first element that is not newer than it. */
  function InsertNewestFirst(x: Alert, s: seq<Alert>): (r: seq<Alert>)
    ensures |r| == |s| + 1
    ensures multiset(r) == multiset(s) + multiset{x}
  {
    if |s| == 0 then [x]
    else if s[0].createdAt <= x.createdAt then [x] + s
    else
      assert s == [s[0]] + s[1..];
      [s[0]] + InsertNewestFirst(x, s[1..])
  }

  /** Inserting into a list sorted newest first keeps it sorted. */
  lemma {:induction false} InsertKeepsNewestFirst(x: Alert, s: seq<Alert>)
    requires NewestFirst(s)
    ensures NewestFirst(InsertNewestFirst(x, s))
  {
    if |s| > 0 && s[0].createdAt > x.createdAt {
      var rest := InsertNewestFirst(x, s[1..]);
      InsertKeepsNewestFirst(x, s[1..]);
      InsertKeepsBound(x, s[1..], s[0].createdAt);
      assert InsertNewestFirst(x, s) == [s[0]] + rest;
    }
  }

  /** Inserting an alert no newer than `t` among alerts no newer than `t` keeps them all so. */
  lemma {:induction false} InsertKeepsBound(x: Alert, s: seq<Alert>, t: int)
    requires x.createdAt <= t && forall i :: 0 <= i < |s| ==> s[i].createdAt <= t
    ensures forall i :: 0 <= i < |InsertNewestFirst(x, s)| ==> InsertNewestFirst(x, s)[i].createdAt <= t
  {
    if |s| > 0 && s[0].createdAt > x.createdAt {
      InsertKeepsBound(x, s[1..], t);
      assert InsertNewestFirst(x, s) == [s[0]] + InsertNewestFirst(x, s[1..]);
    }
  }

  /** The stable sort by `createdAt` descending that `getAllActiveAlerts` applies. */
  function SortNewestFirst(s: seq<Alert>): (r: seq<Alert>)
    ensures NewestFirst(r)
    ensures multiset(r) == multiset(s)
    ensures |r| == |s|
  {
    if |s| == 0 then []
    else
      assert s == [s[0]] + s[1..];
      var sorted := SortNewestFirst(s[1..]);
      InsertKeepsNewestFirst(s[0], sorted);
      InsertNewestFirst(s[0], sorted)
  }

  /** `getAllActiveAlerts`: exactly the active alerts, each as often as stored, newest first. */
  function AllActiveAlerts(alerts: seq<Alert>): (r: seq<Alert>)
    ensures NewestFirst(r)
    ensures multiset(r) == multiset(ActiveAlerts(alerts))
    ensures forall a :: a in r <==> a in alerts && a.status == Active
  {
    var r := SortNewestFirst(ActiveAlerts(alerts));
    assert forall a :: a in r <==> a in multiset(r);
    r
  }

  /** `getClinicAlerts`: the clinic's alerts; with `activeOnly` just the active ones, in table
      order, otherwise all of them, newest first. */
  function ClinicAlerts(alerts: seq<Alert>, clinicId: string, activeOnly: bool): (r: seq<Alert>)
    ensures forall a :: a in r <==> a in alerts && a.clinicId == clinicId && (activeOnly ==> a.status == Active)
    ensures activeOnly ==> r == Filter(alerts, ActiveOfClinic(clinicId))
    ensures !activeOnly ==> NewestFirst(r) && multiset(r) == multiset(Filter(alerts, OfClinic(clinicId)))
  {
    var own := Filter(alerts, OfClinic(clinicId));
    if activeOnly then
      FilterFilter(alerts, OfClinic(clinicId), IsActive(), ActiveOfClinic(clinicId));
      Filter(own, IsActive())
    else
      var r := SortNewestFirst(own);
      assert forall a :: a in r <==> a in multiset(r);
      r
  }

  /** Active alerts of one type. */
  function TypeCount(alerts: seq<Alert>, t: AlertType): nat {
    |Filter(ActiveAlerts(alerts), OfType(t))|
  }

  /** Active alerts of one category. */
  function CategoryCount(alerts: seq<Alert>, c: Category): nat {
    |Filter(ActiveAlerts(alerts), InCategory(c))|
  }

  /** `byCategory` holds an entry exactly for the categories present in `alerts`, and that
      entry is the number of alerts of the category. */
  predicate Tallies(byCategory: map<Category, nat>, alerts: seq<Alert>) {
    forall c :: (c in byCategory <==> |Filter(alerts, InCategory(c))| > 0) &&
      (c in byCategory ==> byCategory[c] == |Filter(alerts, InCategory(c))|)
  }

  /** Counting one more alert of a prefix into the tally (`byCategory[cat] = (byCategory[cat]
      || 0) + 1`) gives the tally of the longer prefix. */
  lemma TallyStep(alerts: seq<Alert>, i: nat, byCategory: map<Category, nat>)
    requires i < |alerts| && Tallies(byCategory, alerts[..i])
    ensures var c := alerts[i].category;
      Tallies(byCategory[c := (if c in byCategory then byCategory[c] else 0) + 1], alerts[..i + 1])
  {
    var cat := alerts[i].category;
    var next := byCategory[cat := (if cat in byCategory then byCategory[cat] else 0) + 1];
    forall c: Category
      ensures (c in next <==> |Filter(alerts[..i + 1], InCategory(c))| > 0) &&
        (c in next ==> next[c] == |Filter(alerts[..i + 1], InCategory(c))|)
    {
      var before := |Filter(alerts[..i], InCategory(c))|;
      assert (c in byCategory <==> before > 0) && (c in byCategory ==> byCategory[c] == before);
      FilterPrefixStep(alerts, i, InCategory(c));
      if c == cat {
        assert |Filter(alerts[..i + 1], InCategory(c))| == before + 1;
      } else {
        assert |Filter(alerts[..i + 1], InCategory(c))| == before;
      }
    }
  }

  /** The `forEach` of `getAlertStats` that groups alerts by category. */
  method GroupByCategory(alerts: seq<Alert>) returns (byCategory: map<Category, nat>)
    ensures Tallies(byCategory, alerts)
  {
    byCategory := map[];
    var i := 0;
    while i < |alerts|
      invariant 0 <= i <= |alerts|
      invariant Tallies(byCategory, alerts[..i])
    {
      var a := alerts[i];
      var n := if a.category in byCategory then byCategory[a.category] else 0;
      TallyStep(alerts, i, byCategory);
      byCategory := byCategory[a.category := n + 1];
      i := i + 1;
    }
    assert alerts[..i] == alerts;
  }

  /** Every active alert is critical or a warning, so the two counts add up to the active count. */
  lemma TypeCountsCoverActive(alerts: seq<Alert>)
    ensures TypeCount(alerts, Critical) + TypeCount(alerts, Warning) == |ActiveAlerts(alerts)|
  {
    FilterComplement(ActiveAlerts(alerts), OfType(Critical), OfType(Warning));
  }

  /** Every active alert is about usage or the trial, so the category counts add up likewise. */
  lemma CategoryCountsCoverActive(alerts: seq<Alert>)
    ensures CategoryCount(alerts, Usage) + CategoryCount(alerts, Trial) == |ActiveAlerts(alerts)|
  {
    FilterComplement(ActiveAlerts(alerts), InCategory(Usage), InCategory(Trial));
  }

  /** Dismissing a stored alert takes it out of the active list: the list shrinks by one when
      the alert was active and is unchanged when it was already resolved. */
  lemma DismissLeavesActiveList(s: Store, alertId: string, now: int)
    requires AlertIndex(s.alerts, alertId).Some?
    ensures var k := AlertIndex(s.alerts, alertId).value;
      var t := DismissAlert(s, alertId, now).alerts;
      t[k] !in AllActiveAlerts(t) &&
      |AllActiveAlerts(t)| == |AllActiveAlerts(s.alerts)| - (if s.alerts[k].status == Active then 1 else 0)
  {
    var k := AlertIndex(s.alerts, alertId).value;
    var t := DismissAlert(s, alertId, now).alerts;
    assert t == s.alerts[k := t[k]];
    FilterUpdateLength(s.alerts, IsActive(), k, t[k]);
  }

  /** Acknowledging keeps the active list's size, and an active alert stays in it, flagged. */
  lemma AcknowledgeKeepsActiveList(s: Store, alertId: string, now: int)
    requires AlertIndex(s.alerts, alertId).Some?
    ensures var k := AlertIndex(s.alerts, alertId).value;
      var t := AcknowledgeAlert(s, alertId, now).alerts;
      t[k].acknowledged &&
      (s.alerts[k].status == Active ==> t[k] in AllActiveAlerts(t)) &&
      |AllActiveAlerts(t)| == |AllActiveAlerts(s.alerts)|
  {
    var k := AlertIndex(s.alerts, alertId).value;
    var t := AcknowledgeAlert(s, alertId, now).alerts;
    assert t == s.alerts[k := t[k]];
    FilterUpdateLength(s.alerts, IsActive(), k, t[k]);
  }
}
