/** What the alert engine does to the tables it keeps in the browser store (clinics, alerts,
    usage log) and to the toast queue, as functions from the old tables to the new ones.

    The store itself is not part of this model. Its operations are taken to behave as follows:
    `get` returns a table as a sequence in insertion order; `add` appends the record it is
    given, stamping `createdAt` and `updatedAt` with the current time; `findById` returns the
    first record with the id, and `update` merges fields into that same record (and does
    nothing when there is none). */
module AlertStore {
  import opened Optional
  import opened AlertModel
  import opened AlertRules

  datatype Store = Store(
    clinics: seq<Clinic>,
    alerts: seq<Alert>,
    usage: seq<UsageEvent>,
    toasts: seq<Toast>)

  function HasAlertId(id: string): Alert -> bool {
    (a: Alert) => a.id == id
  }

  function HasClinicId(id: string): Clinic -> bool {
    (c: Clinic) => c.id == id
  }

  /** `findById('alerts', id)`: the position of the first alert with the id. */
  function AlertIndex(alerts: seq<Alert>, id: string): Option<nat> {
    FindFirst(alerts, HasAlertId(id))
  }

  /** `findById('clinics', id)` */
  function ClinicIndex(clinics: seq<Clinic>, id: string): Option<nat> {
    FindFirst(clinics, HasClinicId(id))
  }

  /** The alert matches the lookup of `getRecentAlert`: same clinic, category and type, still
      active, and created less than 24 hours before `now`. */
  predicate IsRecentMatch(a: Alert, clinicId: string, category: Category, alertType: AlertType, now: int) {
    a.clinicId == clinicId && a.category == category && a.alertType == alertType &&
    a.status == Active && a.createdAt > now - RECENT_WINDOW_MS
  }

  /** `getRecentAlert`: the position of the first alert matching the recency lookup. */
  function RecentAlertIndex(alerts: seq<Alert>, clinicId: string, category: Category, alertType: AlertType, now: int)
    : (r: Option<nat>)
    ensures r.Some? ==> r.value < |alerts| && IsRecentMatch(alerts[r.value], clinicId, category, alertType, now)
    ensures r.Some? ==> forall j :: 0 <= j < r.value ==> !IsRecentMatch(alerts[j], clinicId, category, alertType, now)
    ensures r.None? <==> forall j :: 0 <= j < |alerts| ==> !IsRecentMatch(alerts[j], clinicId, category, alertType, now)
  {
    FindFirst(alerts, (a: Alert) => IsRecentMatch(a, clinicId, category, alertType, now))
  }

  /** `getRecentAlert`: the first alert of the clinic, category and type that is still active
      and was created within the last 24 hours, if there is one. */
  function RecentAlert(alerts: seq<Alert>, clinicId: string, category: Category, alertType: AlertType, now: int)
    : (r: Option<Alert>)
    ensures r.Some? ==> r.value in alerts && IsRecentMatch(r.value, clinicId, category, alertType, now)
    ensures r.Some? ==>
      exists i :: 0 <= i < |alerts| && alerts[i] == r.value &&
        IsRecentMatch(alerts[i], clinicId, category, alertType, now) &&
        forall j :: 0 <= j < i ==> !IsRecentMatch(alerts[j], clinicId, category, alertType, now)
    ensures r.None? <==> forall a :: a in alerts ==> !IsRecentMatch(a, clinicId, category, alertType, now)
  {
    match RecentAlertIndex(alerts, clinicId, category, alertType, now)
    case Some(i) => Some(alerts[i])
    case None => None
  }

  /** The fields a merge writes: the new alert data, `updatedAt` and the bumped count. */
  function MergedAlert(a: Alert, input: AlertInput, now: int, count: int): Alert {
    a.(alertType := input.alertType, category := input.category, title := input.title,
       message := input.message, action := input.action, data := input.data,
       updatedAt := now, count := Some(count))
  }

  function MergeWith(input: AlertInput, now: int, count: int): Alert -> Alert {
    (a: Alert) => MergedAlert(a, input, now, count)
  }

  /** The fields `acknowledgeAlert` writes. */
  function MarkAcknowledged(now: int): Alert -> Alert {
    (a: Alert) => a.(acknowledged := true, acknowledgedAt := Some(now))
  }

  /** The fields `dismissAlert` writes. */
  function MarkResolved(now: int): Alert -> Alert {
    (a: Alert) => a.(status := Resolved, resolvedAt := Some(now))
  }

  /** The record `createAlert` adds, stamped by the store with the current time. */
  function NewAlert(clinicId: string, input: AlertInput, now: int): Alert {
    Alert(AlertKey(clinicId, input.category, input.alertType), clinicId, input.alertType, input.category,
      input.title, input.message, input.action, input.data,
      Active, false, Some(1), now, now, None, None)
  }

  function CreationEvent(clinicId: string, input: AlertInput, now: int): UsageEvent {
    UsageEvent(clinicId, AlertCreated(input.alertType, input.category, input.title), now)
  }

  function CreationToast(input: AlertInput): Toast {
    Toast(input.message, if input.alertType == Critical then CRITICAL_TOAST_MS else WARNING_TOAST_MS)
  }

  /** `createAlert`: merge into a recent active alert with the same key, or add a new one.
      Returns the new tables and the alert the source returns (the pre-update record on a merge). */
  function CreateAlert(s: Store, clinicId: string, input: AlertInput, now: int): (r: (Store, Alert))
    ensures r.0.clinics == s.clinics
    ensures RecentAlertIndex(s.alerts, clinicId, input.category, input.alertType, now).Some? ==>
      var i := RecentAlertIndex(s.alerts, clinicId, input.category, input.alertType, now).value;
      r.1 == s.alerts[i] && |r.0.alerts| == |s.alerts| && r.0.usage == s.usage && r.0.toasts == s.toasts
    ensures RecentAlertIndex(s.alerts, clinicId, input.category, input.alertType, now).None? ==>
      r.0.alerts == s.alerts + [r.1] &&
      r.1.id == AlertKey(clinicId, input.category, input.alertType) && r.1.clinicId == clinicId &&
      r.1.alertType == input.alertType && r.1.category == input.category && r.1.message == input.message &&
      r.1.status == Active && !r.1.acknowledged && r.1.count == Some(1) && r.1.createdAt == now &&
      r.0.usage == s.usage + [UsageEvent(clinicId, AlertCreated(input.alertType, input.category, input.title), now)] &&
      r.0.toasts == s.toasts + [Toast(input.message, if input.alertType == Critical then 8000 else 6000)]
  {
    match RecentAlertIndex(s.alerts, clinicId, input.category, input.alertType, now)
    case Some(i) =>
      var existing := s.alerts[i];
      var count := CountOrOne(existing.count) + 1;
      (s.(alerts := UpdateFirst(s.alerts, HasAlertId(existing.id), MergeWith(input, now, count))),
       existing)
    case None =>
      var alert := NewAlert(clinicId, input, now);
      (s.(alerts := s.alerts + [alert],
          toasts := s.toasts + [CreationToast(input)],
          usage := s.usage + [CreationEvent(clinicId, input, now)]),
       alert)
  }

  /** A merge lands on the first record carrying the found alert's id. When that is the found
      alert itself, its count goes up by one, its data and `updatedAt` are refreshed, and its
      status, acknowledgement and creation time are kept; no other record changes. */
  lemma MergeUpdatesFoundAlert(s: Store, clinicId: string, input: AlertInput, now: int, i: nat)
    requires RecentAlertIndex(s.alerts, clinicId, input.category, input.alertType, now) == Some(i)
    requires AlertIndex(s.alerts, s.alerts[i].id) == Some(i)
    ensures var t := CreateAlert(s, clinicId, input, now).0.alerts;
      |t| == |s.alerts| &&
      t[i].count == Some(CountOrOne(s.alerts[i].count) + 1) &&
      t[i].updatedAt == now && t[i].message == input.message && t[i].data == input.data &&
      t[i].id == s.alerts[i].id && t[i].clinicId == s.alerts[i].clinicId &&
      t[i].status == s.alerts[i].status && t[i].acknowledged == s.alerts[i].acknowledged &&
      t[i].createdAt == s.alerts[i].createdAt &&
      (forall j :: 0 <= j < |t| && j != i ==> t[j] == s.alerts[j])
  {
  }

  /** `acknowledgeAlert`: flag the first alert with the id and log it; unknown ids change nothing. */
  function AcknowledgeAlert(s: Store, alertId: string, now: int): (r: Store)
    ensures AlertIndex(s.alerts, alertId).None? ==> r == s
    ensures AlertIndex(s.alerts, alertId).Some? ==>
      var k := AlertIndex(s.alerts, alertId).value;
      |r.alerts| == |s.alerts| &&
      r.alerts[k] == s.alerts[k].(acknowledged := true, acknowledgedAt := Some(now)) &&
      (forall j :: 0 <= j < |r.alerts| && j != k ==> r.alerts[j] == s.alerts[j]) &&
      r.usage == s.usage + [UsageEvent(s.alerts[k].clinicId,
        AlertAcknowledged(alertId, s.alerts[k].alertType, s.alerts[k].category), now)] &&
      r.clinics == s.clinics && r.toasts == s.toasts
  {
    match AlertIndex(s.alerts, alertId)
    case None => s
    case Some(k) =>
      var alert := s.alerts[k];
      s.(alerts := UpdateFirst(s.alerts, HasAlertId(alertId), MarkAcknowledged(now)),
         usage := s.usage + [UsageEvent(alert.clinicId, AlertAcknowledged(alertId, alert.alertType, alert.category), now)])
  }

  /** `dismissAlert`: resolve the first alert with the id and log it, even when it is already
      resolved; unknown ids change nothing. */
  function DismissAlert(s: Store, alertId: string, now: int): (r: Store)
    ensures AlertIndex(s.alerts, alertId).None? ==> r == s
    ensures AlertIndex(s.alerts, alertId).Some? ==>
      var k := AlertIndex(s.alerts, alertId).value;
      |r.alerts| == |s.alerts| &&
      r.alerts[k] == s.alerts[k].(status := Resolved, resolvedAt := Some(now)) &&
      (forall j :: 0 <= j < |r.alerts| && j != k ==> r.alerts[j] == s.alerts[j]) &&
      r.usage == s.usage + [UsageEvent(s.alerts[k].clinicId,
        AlertDismissed(alertId, s.alerts[k].alertType, s.alerts[k].category), now)] &&
      r.clinics == s.clinics && r.toasts == s.toasts
  {
    match AlertIndex(s.alerts, alertId)
    case None => s
    case Some(k) =>
      var alert := s.alerts[k];
      s.(alerts := UpdateFirst(s.alerts, HasAlertId(alertId), MarkResolved(now)),
         usage := s.usage + [UsageEvent(alert.clinicId, AlertDismissed(alertId, alert.alertType, alert.category), now)])
  }

  /** `update('clinics', id, {subscriptionStatus: 'expired', isActive: false})` */
  function ExpireClinic(clinics: seq<Clinic>, id: string): (r: seq<Clinic>)
    ensures |r| == |clinics|
    ensures ClinicIndex(clinics, id).None? ==> r == clinics
    ensures ClinicIndex(clinics, id).Some? ==>
      var k := ClinicIndex(clinics, id).value;
      r[k] == ExpiredClinic(clinics[k]) && !r[k].isActive && r[k].subscriptionStatus == "expired" &&
      forall j :: 0 <= j < |r| && j != k ==> r[j] == clinics[j]
  {
    UpdateFirst(clinics, HasClinicId(id), ExpiredClinic)
  }

  /** `checkClinicUsage`: at most one alert is created, and the clinics table is never touched. */
  function CheckUsage(s: Store, c: Clinic, now: int): (r: Store)
    ensures r.clinics == s.clinics
    ensures UsageAlert(c).None? ==> r == s
    ensures UsageAlert(c).Some? ==> r == CreateAlert(s, c.id, UsageAlert(c).value, now).0
    ensures |s.alerts| <= |r.alerts| <= |s.alerts| + 1
  {
    match UsageAlert(c)
    case None => s
    case Some(input) => CreateAlert(s, c.id, input, now).0
  }

  /** `checkTrialStatus`: on expiry the clinic is also deactivated, after the alert is recorded;
      a warning leaves the clinics table as it was. */
  function CheckTrial(s: Store, c: Clinic, now: int): (r: Store)
    ensures TrialAlert(c, now).None? ==> r == s
    ensures TrialAlert(c, now).Some? && TrialAlert(c, now).value.alertType == Warning ==> r.clinics == s.clinics
    ensures TrialAlert(c, now).Some? && TrialAlert(c, now).value.alertType == Critical ==>
      r.clinics == ExpireClinic(s.clinics, c.id)
    ensures TrialAlert(c, now).Some? ==>
      var created := CreateAlert(s, c.id, TrialAlert(c, now).value, now).0;
      r.alerts == created.alerts && r.usage == created.usage && r.toasts == created.toasts
    ensures |s.alerts| <= |r.alerts| <= |s.alerts| + 1
  {
    match TrialAlert(c, now)
    case None => s
    case Some(input) =>
      var s1 := CreateAlert(s, c.id, input, now).0;
      if input.alertType == Critical then s1.(clinics := ExpireClinic(s1.clinics, c.id)) else s1
  }

  /** One iteration of the `checkAllClinics` loop: inactive clinics are skipped, and an active
      one gets at most a usage alert and a trial alert. */
  function CheckClinic(s: Store, c: Clinic, now: int): (r: Store)
    ensures !c.isActive ==> r == s
    ensures |r.clinics| == |s.clinics|
    ensures |s.alerts| <= |r.alerts| <= |s.alerts| + 2
  {
    if c.isActive then CheckTrial(CheckUsage(s, c, now), c, now) else s
  }

  /** `checkAllClinics` over a snapshot of the clinics table, one clinic after another: the
      clinics table keeps its size and each clinic of the snapshot adds at most two alerts. */
  function Pass(s: Store, snapshot: seq<Clinic>, now: int): (r: Store)
    ensures |r.clinics| == |s.clinics|
    ensures |s.alerts| <= |r.alerts| <= |s.alerts| + 2 * |snapshot|
    decreases |snapshot|
  {
    if |snapshot| == 0 then s
    else CheckClinic(Pass(s, snapshot[..|snapshot| - 1], now), snapshot[|snapshot| - 1], now)
  }

  /** `checkAllClinics`: a pass over the clinics table as it stands when the pass begins. */
  function CheckAllClinics(s: Store, now: int): (r: Store)
    ensures |r.clinics| == |s.clinics|
    ensures |s.alerts| <= |r.alerts| <= |s.alerts| + 2 * |s.clinics|
  {
    Pass(s, s.clinics, now)
  }
}
