/** Properties of the alert engine's store transitions that span several calls: the
    deduplication invariant, what a repeated detection does, and what a full pass may change. */
module AlertInvariants {
  import opened Optional
  import opened AlertModel
  import opened AlertRules
  import opened AlertStore

  predicate SameKey(a: Alert, b: Alert) {
    a.clinicId == b.clinicId && a.category == b.category && a.alertType == b.alertType
  }

  /** Every alert carries the deterministic id of its (clinic, category, type) key. */
  predicate KeyedIds(alerts: seq<Alert>) {
    forall i :: 0 <= i < |alerts| ==> alerts[i].id == AlertKey(alerts[i].clinicId, alerts[i].category, alerts[i].alertType)
  }

  /** Two active alerts with the same key were created at least a recency window apart. */
  predicate Spaced(alerts: seq<Alert>) {
    forall i, j ::
      0 <= i < j < |alerts| && alerts[i].status == Active && alerts[j].status == Active && SameKey(alerts[i], alerts[j])
      ==> alerts[i].createdAt + RECENT_WINDOW_MS <= alerts[j].createdAt
  }

  /** No alert was created after `now`: the clock never runs backwards. */
  predicate CreatedBy(alerts: seq<Alert>, now: int) {
    forall i :: 0 <= i < |alerts| ==> alerts[i].createdAt <= now
  }

  predicate DedupInvariant(alerts: seq<Alert>, now: int) {
    KeyedIds(alerts) && Spaced(alerts) && CreatedBy(alerts, now)
  }

  /** Under the invariant at most one alert per key answers the recency lookup. */
  lemma AtMostOneRecentMatch(alerts: seq<Alert>, now: int, clinicId: string, category: Category,
                             alertType: AlertType, i: nat, j: nat)
    requires DedupInvariant(alerts, now)
    requires i < |alerts| && IsRecentMatch(alerts[i], clinicId, category, alertType, now)
    requires j < |alerts| && IsRecentMatch(alerts[j], clinicId, category, alertType, now)
    ensures i == j
  {
    if i < j {
      assert SameKey(alerts[i], alerts[j]);
    } else if j < i {
      assert SameKey(alerts[j], alerts[i]);
    }
  }

  /** A table whose records keep their ids, keys and creation times, and none of which becomes
      active, keeps the invariant. */
  lemma InvariantKeptByRelabelling(s: seq<Alert>, t: seq<Alert>, now: int)
    requires DedupInvariant(s, now)
    requires |t| == |s|
    requires forall j :: 0 <= j < |t| ==>
      t[j].id == s[j].id && SameKey(t[j], s[j]) && t[j].createdAt == s[j].createdAt &&
      (t[j].status == Active ==> s[j].status == Active)
    ensures DedupInvariant(t, now)
  {
    forall i, j | 0 <= i < j < |t| && t[i].status == Active && t[j].status == Active && SameKey(t[i], t[j])
      ensures t[i].createdAt + RECENT_WINDOW_MS <= t[j].createdAt
    {
      assert SameKey(s[i], s[j]);
    }
  }

  /** A merge keeps the invariant: it lands on a record of the same key and changes no key,
      status or creation time. */
  lemma MergeKeepsInvariant(s: Store, clinicId: string, input: AlertInput, now: int, i: nat)
    requires DedupInvariant(s.alerts, now)
    requires RecentAlertIndex(s.alerts, clinicId, input.category, input.alertType, now) == Some(i)
    ensures DedupInvariant(CreateAlert(s, clinicId, input, now).0.alerts, now)
  {
    var t := CreateAlert(s, clinicId, input, now).0.alerts;
    var e := s.alerts[i];
    var k := AlertIndex(s.alerts, e.id).value;
    var a := s.alerts[k];
    assert a.id == e.id;
    AlertKeyInjective(a.clinicId, a.category, a.alertType, e.clinicId, e.category, e.alertType);
    assert t == s.alerts[k := MergedAlert(a, input, now, CountOrOne(e.count) + 1)];
    InvariantKeptByRelabelling(s.alerts, t, now);
  }

  /** A new record keeps the invariant: it is added only when no active alert with its key is
      recent, so every earlier one is at least a window older. */
  lemma AppendKeepsInvariant(s: Store, clinicId: string, input: AlertInput, now: int)
    requires DedupInvariant(s.alerts, now)
    requires RecentAlertIndex(s.alerts, clinicId, input.category, input.alertType, now).None?
    ensures DedupInvariant(CreateAlert(s, clinicId, input, now).0.alerts, now)
  {
    var t := CreateAlert(s, clinicId, input, now).0.alerts;
    var n := |s.alerts|;
    assert t == s.alerts + [NewAlert(clinicId, input, now)];
    forall i | 0 <= i < n && t[i].status == Active && SameKey(t[i], t[n])
      ensures t[i].createdAt + RECENT_WINDOW_MS <= t[n].createdAt
    {
      assert !IsRecentMatch(s.alerts[i], clinicId, input.category, input.alertType, now);
    }
  }

  /** `createAlert` keeps the deduplication invariant. */
  lemma CreateAlertKeepsInvariant(s: Store, clinicId: string, input: AlertInput, now: int)
    requires DedupInvariant(s.alerts, now)
    ensures DedupInvariant(CreateAlert(s, clinicId, input, now).0.alerts, now)
  {
    match RecentAlertIndex(s.alerts, clinicId, input.category, input.alertType, now)
    case Some(i) => MergeKeepsInvariant(s, clinicId, input, now, i);
    case None => AppendKeepsInvariant(s, clinicId, input, now);
  }

  /** Rewriting one record without changing its id, key or creation time, and without
      reactivating it, keeps the invariant. */
  lemma RelabelOneKeepsInvariant(s: seq<Alert>, k: nat, y: Alert, now: int)
    requires DedupInvariant(s, now) && k < |s|
    requires y.id == s[k].id && SameKey(y, s[k]) && y.createdAt == s[k].createdAt
    requires y.status == Active ==> s[k].status == Active
    ensures DedupInvariant(s[k := y], now)
  {
    InvariantKeptByRelabelling(s, s[k := y], now);
  }

  lemma AcknowledgeKeepsInvariant(s: Store, alertId: string, now: int)
    requires DedupInvariant(s.alerts, now)
    ensures DedupInvariant(AcknowledgeAlert(s, alertId, now).alerts, now)
  {
    if AlertIndex(s.alerts, alertId).Some? {
      var k := AlertIndex(s.alerts, alertId).value;
      var t := AcknowledgeAlert(s, alertId, now).alerts;
      assert t == s.alerts[k := t[k]];
      RelabelOneKeepsInvariant(s.alerts, k, t[k], now);
    }
  }

  lemma DismissKeepsInvariant(s: Store, alertId: string, now: int)
    requires DedupInvariant(s.alerts, now)
    ensures DedupInvariant(DismissAlert(s, alertId, now).alerts, now)
  {
    if AlertIndex(s.alerts, alertId).Some? {
      var k := AlertIndex(s.alerts, alertId).value;
      var t := DismissAlert(s, alertId, now).alerts;
      assert t == s.alerts[k := t[k]];
      RelabelOneKeepsInvariant(s.alerts, k, t[k], now);
    }
  }

  lemma CheckClinicKeepsInvariant(s: Store, c: Clinic, now: int)
    requires DedupInvariant(s.alerts, now)
    ensures DedupInvariant(CheckClinic(s, c, now).alerts, now)
  {
    if c.isActive {
      var s1 := CheckUsage(s, c, now);
      if UsageAlert(c).Some? {
        CreateAlertKeepsInvariant(s, c.id, UsageAlert(c).value, now);
      }
      if TrialAlert(c, now).Some? {
        CreateAlertKeepsInvariant(s1, c.id, TrialAlert(c, now).value, now);
      }
    }
  }

  /** A full pass keeps the deduplication invariant. */
  lemma {:induction false} PassKeepsInvariant(s: Store, snapshot: seq<Clinic>, now: int)
    requires DedupInvariant(s.alerts, now)
    ensures DedupInvariant(Pass(s, snapshot, now).alerts, now)
    decreases |snapshot|
  {
    if |snapshot| > 0 {
      var init := snapshot[..|snapshot| - 1];
      PassKeepsInvariant(s, init, now);
      CheckClinicKeepsInvariant(Pass(s, init, now), snapshot[|snapshot| - 1], now);
    }
  }

  /** A record created when no older record carries its id is found by that id. */
  lemma FreshAlertFoundById(s: Store, clinicId: string, input: AlertInput, t1: int)
    requires RecentAlertIndex(s.alerts, clinicId, input.category, input.alertType, t1).None?
    requires AlertIndex(s.alerts, AlertKey(clinicId, input.category, input.alertType)).None?
    ensures var s1 := CreateAlert(s, clinicId, input, t1).0;
      |s1.alerts| == |s.alerts| + 1 && AlertIndex(s1.alerts, s1.alerts[|s.alerts|].id) == Some(|s.alerts|)
  {
    var created := NewAlert(clinicId, input, t1);
    assert CreateAlert(s, clinicId, input, t1).0.alerts == s.alerts + [created];
    FirstMatchAppended(s.alerts, created, HasAlertId(created.id));
  }

  /** When nothing in `s` matches, an appended match is the first one. */
  lemma {:induction false} FirstMatchAppended<T>(s: seq<T>, x: T, p: T -> bool)
    requires FindFirst(s, p).None? && p(x)
    ensures FindFirst(s + [x], p) == Some(|s|)
  {
    var t := s + [x];
    assert p(t[|s|]);
    assert forall j :: 0 <= j < |s| ==> t[j] == s[j];
  }

  /** Detecting the same condition twice within 24 hours gives one record with count 2, one
      toast and one `alert_created` entry, provided no older record carries the same id. */
  lemma RecheckWithinWindowMerges(s: Store, clinicId: string, input: AlertInput, t1: int, t2: int)
    requires RecentAlertIndex(s.alerts, clinicId, input.category, input.alertType, t1).None?
    requires AlertIndex(s.alerts, AlertKey(clinicId, input.category, input.alertType)).None?
    requires t1 <= t2 < t1 + RECENT_WINDOW_MS
    ensures var s1 := CreateAlert(s, clinicId, input, t1).0;
      var s2 := CreateAlert(s1, clinicId, input, t2).0;
      var n := |s.alerts|;
      |s2.alerts| == n + 1 && s2.alerts[..n] == s.alerts &&
      s2.alerts[n].count == Some(2) && s2.alerts[n].status == Active &&
      s2.alerts[n].createdAt == t1 && s2.alerts[n].updatedAt == t2 &&
      s2.usage == s.usage + [CreationEvent(clinicId, input, t1)] &&
      s2.toasts == s.toasts + [CreationToast(input)]
  {
    var n := |s.alerts|;
    var s1 := CreateAlert(s, clinicId, input, t1).0;
    assert s1.alerts == s.alerts + [NewAlert(clinicId, input, t1)];
    SecondDetectionFindsFresh(s, clinicId, input, t1, t2);
    FreshAlertFoundById(s, clinicId, input, t1);
    MergeUpdatesFoundAlert(s1, clinicId, input, t2, n);
    var s2 := CreateAlert(s1, clinicId, input, t2).0;
    assert s2.alerts[..n] == s.alerts by {
      assert forall j :: 0 <= j < n ==> s2.alerts[j] == s1.alerts[j] == s.alerts[j];
    }
  }

  /** With an older record (say, a resolved one) holding the same deterministic id, the second
      detection's merge is written into the first record carrying that id, with count 2 taken
      from the fresh alert, while the fresh alert itself keeps count 1. */
  lemma StaleRecordAbsorbsMerge(s: Store, clinicId: string, input: AlertInput, t1: int, t2: int, k: nat)
    requires k < |s.alerts| && s.alerts[k].id == AlertKey(clinicId, input.category, input.alertType)
    requires RecentAlertIndex(s.alerts, clinicId, input.category, input.alertType, t1).None?
    requires t1 <= t2 < t1 + RECENT_WINDOW_MS
    ensures AlertIndex(s.alerts, AlertKey(clinicId, input.category, input.alertType)).Some?
    ensures var s1 := CreateAlert(s, clinicId, input, t1).0;
      var s2 := CreateAlert(s1, clinicId, input, t2).0;
      var m := AlertIndex(s.alerts, AlertKey(clinicId, input.category, input.alertType)).value;
      m <= k && |s2.alerts| == |s.alerts| + 1 &&
      s2.alerts[m] == MergedAlert(s.alerts[m], input, t2, 2) &&
      s2.alerts[|s.alerts|] == s1.alerts[|s.alerts|] && s2.alerts[|s.alerts|].count == Some(1)
  {
    var n := |s.alerts|;
    var s1 := CreateAlert(s, clinicId, input, t1).0;
    var key := AlertKey(clinicId, input.category, input.alertType);
    assert HasAlertId(key)(s.alerts[k]);
    var m := AlertIndex(s.alerts, key).value;
    SameFirstInExtension(s.alerts, s1.alerts, HasAlertId(key));
    SecondDetectionFindsFresh(s, clinicId, input, t1, t2);
    var s2 := CreateAlert(s1, clinicId, input, t2).0;
    assert s2.alerts == s1.alerts[m := MergedAlert(s1.alerts[m], input, t2, CountOrOne(s1.alerts[n].count) + 1)];
  }

  /** After a fresh alert is appended, the recency lookup `t2` later finds exactly that alert. */
  lemma SecondDetectionFindsFresh(s: Store, clinicId: string, input: AlertInput, t1: int, t2: int)
    requires RecentAlertIndex(s.alerts, clinicId, input.category, input.alertType, t1).None?
    requires t1 <= t2 < t1 + RECENT_WINDOW_MS
    ensures var s1 := CreateAlert(s, clinicId, input, t1).0;
      RecentAlertIndex(s1.alerts, clinicId, input.category, input.alertType, t2) == Some(|s.alerts|) &&
      s1.alerts[..|s.alerts|] == s.alerts && s1.alerts[|s.alerts|].count == Some(1)
  {
    var n := |s.alerts|;
    var s1 := CreateAlert(s, clinicId, input, t1).0;
    forall j | 0 <= j < n
      ensures !IsRecentMatch(s1.alerts[j], clinicId, input.category, input.alertType, t2)
    {
      assert !IsRecentMatch(s.alerts[j], clinicId, input.category, input.alertType, t1);
    }
    assert IsRecentMatch(s1.alerts[n], clinicId, input.category, input.alertType, t2);
  }

  /** A first match in a prefix is the first match of any extension of it. */
  lemma SameFirstInExtension<T>(s: seq<T>, t: seq<T>, p: T -> bool)
    requires |s| <= |t| && t[..|s|] == s && FindFirst(s, p).Some?
    ensures FindFirst(t, p) == FindFirst(s, p)
  {
    var m := FindFirst(s, p).value;
    assert t[m] == s[m];
    forall j | 0 <= j < m ensures !p(t[j]) {
      assert t[j] == s[j];
    }
  }

  /** Because the older record shadows the fresh alert's id, dismissing or acknowledging by
      that id lands on the older record: the fresh alert stays active and unacknowledged. */
  lemma StaleRecordShadowsFreshAlert(s: Store, clinicId: string, input: AlertInput, t1: int, t2: int, k: nat)
    requires k < |s.alerts| && s.alerts[k].id == AlertKey(clinicId, input.category, input.alertType)
    requires RecentAlertIndex(s.alerts, clinicId, input.category, input.alertType, t1).None?
    ensures var s1 := CreateAlert(s, clinicId, input, t1).0;
      var key := AlertKey(clinicId, input.category, input.alertType);
      |s1.alerts| == |s.alerts| + 1 && s1.alerts[|s.alerts|].status == Active &&
      DismissAlert(s1, key, t2).alerts[|s.alerts|] == s1.alerts[|s.alerts|] &&
      AcknowledgeAlert(s1, key, t2).alerts[|s.alerts|] == s1.alerts[|s.alerts|]
  {
    var s1 := CreateAlert(s, clinicId, input, t1).0;
    var key := AlertKey(clinicId, input.category, input.alertType);
    assert HasAlertId(key)(s.alerts[k]);
    assert s1.alerts[..|s.alerts|] == s.alerts;
    SameFirstInExtension(s.alerts, s1.alerts, HasAlertId(key));
  }

  /** The ids of the active clinics of a snapshot. */
  function ActiveIds(snapshot: seq<Clinic>): set<string> {
    set m | 0 <= m < |snapshot| && snapshot[m].isActive :: snapshot[m].id
  }

  /** A clinic record after a pass: itself, or itself expired. */
  predicate SameOrExpired(before: Clinic, after: Clinic) {
    after == before || after == ExpiredClinic(before)
  }

  /** Alerts are only added, existing ones keep their clinic, and new ones belong to `ids`. */
  predicate AlertsGrow(before: seq<Alert>, after: seq<Alert>, ids: set<string>) {
    |after| >= |before| &&
    (forall j :: 0 <= j < |before| ==> after[j].clinicId == before[j].clinicId) &&
    (forall j :: |before| <= j < |after| ==> after[j].clinicId in ids)
  }

  /** The usage log is only appended to, with entries of clinics in `ids`. */
  predicate UsageGrows(before: seq<UsageEvent>, after: seq<UsageEvent>, ids: set<string>) {
    |after| >= |before| && after[..|before|] == before &&
    (forall j :: |before| <= j < |after| ==> after[j].clinicId in ids)
  }

  /** Clinic records change only by expiring. */
  predicate ClinicsExpireOnly(before: seq<Clinic>, after: seq<Clinic>) {
    |after| == |before| && forall k :: 0 <= k < |before| ==> SameOrExpired(before[k], after[k])
  }

  lemma AlertsGrowTrans(a: seq<Alert>, b: seq<Alert>, c: seq<Alert>, i: set<string>, j: set<string>, k: set<string>)
    requires AlertsGrow(a, b, i) && AlertsGrow(b, c, j) && i <= k && j <= k
    ensures AlertsGrow(a, c, k)
  {
  }

  lemma UsageGrowsTrans(a: seq<UsageEvent>, b: seq<UsageEvent>, c: seq<UsageEvent>, i: set<string>, j: set<string>, k: set<string>)
    requires UsageGrows(a, b, i) && UsageGrows(b, c, j) && i <= k && j <= k
    ensures UsageGrows(a, c, k)
  {
    assert c[..|a|] == c[..|b|][..|a|];
  }

  lemma ClinicsExpireOnlyTrans(a: seq<Clinic>, b: seq<Clinic>, c: seq<Clinic>)
    requires ClinicsExpireOnly(a, b) && ClinicsExpireOnly(b, c)
    ensures ClinicsExpireOnly(a, c)
  {
    forall k | 0 <= k < |a| ensures SameOrExpired(a[k], c[k]) {
      assert SameOrExpired(a[k], b[k]) && SameOrExpired(b[k], c[k]);
    }
  }

  /** The frame facts of one `createAlert` call (or of none). */
  lemma CreateFrame(s: Store, clinicId: string, input: Option<AlertInput>, now: int)
    ensures var r := if input.Some? then CreateAlert(s, clinicId, input.value, now).0 else s;
      AlertsGrow(s.alerts, r.alerts, {clinicId}) && UsageGrows(s.usage, r.usage, {clinicId}) &&
      r.clinics == s.clinics
  {
    if input.Some? {
      var x := input.value;
      match RecentAlertIndex(s.alerts, clinicId, x.category, x.alertType, now)
      case Some(i) =>
        var k := AlertIndex(s.alerts, s.alerts[i].id).value;
        assert CreateAlert(s, clinicId, x, now).0.alerts
          == s.alerts[k := MergedAlert(s.alerts[k], x, now, CountOrOne(s.alerts[i].count) + 1)];
      case None =>
    }
  }

  /** Expiring a clinic changes only records, and only by expiring them. */
  lemma ExpireClinicExpiresOnly(t: seq<Clinic>, id: string)
    ensures ClinicsExpireOnly(t, ExpireClinic(t, id))
  {
  }

  /** The ids a check of `c` may touch: its own when active, none otherwise. */
  function TouchedIds(c: Clinic): set<string> {
    if c.isActive then {c.id} else {}
  }

  /** One iteration of the pass: existing alerts keep their clinic, usage entries are only
      appended, everything appended belongs to the (active) clinic checked, and a clinic record
      changes only by expiring. */
  lemma CheckClinicFrame(s: Store, c: Clinic, now: int)
    ensures var r := CheckClinic(s, c, now);
      AlertsGrow(s.alerts, r.alerts, TouchedIds(c)) && UsageGrows(s.usage, r.usage, TouchedIds(c)) &&
      ClinicsExpireOnly(s.clinics, r.clinics)
  {
    var r := CheckClinic(s, c, now);
    if c.isActive {
      var ids := {c.id};
      CreateFrame(s, c.id, UsageAlert(c), now);
      var s1 := CheckUsage(s, c, now);
      CreateFrame(s1, c.id, TrialAlert(c, now), now);
      var s2 := if TrialAlert(c, now).Some? then CreateAlert(s1, c.id, TrialAlert(c, now).value, now).0 else s1;
      assert r.alerts == s2.alerts && r.usage == s2.usage;
      AlertsGrowTrans(s.alerts, s1.alerts, r.alerts, ids, ids, ids);
      UsageGrowsTrans(s.usage, s1.usage, r.usage, ids, ids, ids);
      ExpireClinicExpiresOnly(s.clinics, c.id);
      assert r.clinics == s.clinics || r.clinics == ExpireClinic(s.clinics, c.id);
    } else {
      assert r.usage[..|s.usage|] == s.usage;
    }
  }

  /** The active clinics of a prefix are active clinics of the whole snapshot. */
  lemma ActiveIdsOfPrefix(snapshot: seq<Clinic>, n: nat)
    requires n <= |snapshot|
    ensures ActiveIds(snapshot[..n]) <= ActiveIds(snapshot)
  {
    forall id | id in ActiveIds(snapshot[..n]) ensures id in ActiveIds(snapshot) {
      var m :| 0 <= m < n && snapshot[..n][m].isActive && snapshot[..n][m].id == id;
      assert snapshot[m] == snapshot[..n][m];
    }
  }

  /** A pass adds alerts and usage entries only for clinics active in its snapshot, keeps the
      clinic of every existing alert, never rewrites the usage log, and changes a clinic record
      only by expiring it. */
  lemma {:induction false} PassFrame(s: Store, snapshot: seq<Clinic>, now: int)
    ensures var r := Pass(s, snapshot, now);
      AlertsGrow(s.alerts, r.alerts, ActiveIds(snapshot)) &&
      UsageGrows(s.usage, r.usage, ActiveIds(snapshot)) &&
      ClinicsExpireOnly(s.clinics, r.clinics)
    decreases |snapshot|
  {
    var r := Pass(s, snapshot, now);
    if |snapshot| == 0 {
      assert r.usage[..|s.usage|] == s.usage;
    } else {
      var n := |snapshot| - 1;
      var init := snapshot[..n];
      var c := snapshot[n];
      PassFrame(s, init, now);
      var p := Pass(s, init, now);
      CheckClinicFrame(p, c, now);
      assert r == CheckClinic(p, c, now);
      ActiveIdsOfPrefix(snapshot, n);
      assert TouchedIds(c) <= ActiveIds(snapshot);
      AlertsGrowTrans(s.alerts, p.alerts, r.alerts, ActiveIds(init), TouchedIds(c), ActiveIds(snapshot));
      UsageGrowsTrans(s.usage, p.usage, r.usage, ActiveIds(init), TouchedIds(c), ActiveIds(snapshot));
      ClinicsExpireOnlyTrans(s.clinics, p.clinics, r.clinics);
    }
  }

  /** A clinic that is inactive, and alone with its id, gets no new alert and no usage entry
      from a full pass: once deactivated by trial expiry it is skipped, usage check included. */
  lemma InactiveClinicRaisesNothing(s: Store, now: int, k: nat)
    requires k < |s.clinics| && !s.clinics[k].isActive
    requires forall m :: 0 <= m < |s.clinics| && m != k ==> s.clinics[m].id != s.clinics[k].id
    ensures var r := CheckAllClinics(s, now);
      (forall j :: |s.alerts| <= j < |r.alerts| ==> r.alerts[j].clinicId != s.clinics[k].id) &&
      (forall j :: |s.usage| <= j < |r.usage| ==> r.usage[j].clinicId != s.clinics[k].id)
  {
    PassFrame(s, s.clinics, now);
    assert s.clinics[k].id !in ActiveIds(s.clinics);
  }

  /** Clinic tables with the same ids answer `findById` alike. */
  lemma ClinicIndexSameIds(t: seq<Clinic>, u: seq<Clinic>, id: string)
    requires |t| == |u| && forall j :: 0 <= j < |t| ==> t[j].id == u[j].id
    ensures ClinicIndex(t, id) == ClinicIndex(u, id)
  {
    var a, b := ClinicIndex(t, id), ClinicIndex(u, id);
    if a.Some? {
      assert HasClinicId(id)(u[a.value]);
    }
    if b.Some? {
      assert HasClinicId(id)(t[b.value]);
    }
  }

  /** Checking an active clinic whose trial has ended expires the first record with its id. */
  lemma CheckClinicExpiresEndedTrial(p: Store, c: Clinic, now: int, k: nat)
    requires c.isActive && OnDatedTrial(c) && c.trialEndDate.value <= now
    requires ClinicIndex(p.clinics, c.id) == Some(k)
    ensures k < |CheckClinic(p, c, now).clinics|
    ensures !CheckClinic(p, c, now).clinics[k].isActive
    ensures CheckClinic(p, c, now).clinics[k].subscriptionStatus == "expired"
  {
    var s1 := CheckUsage(p, c, now);
    assert s1.clinics == p.clinics;
    var input := TrialAlert(c, now).value;
    var s2 := CreateAlert(s1, c.id, input, now).0;
    assert s2.clinics == p.clinics;
    assert CheckClinic(p, c, now).clinics == ExpireClinic(p.clinics, c.id);
  }

  /** A later check never reactivates an expired clinic record. */
  lemma CheckClinicKeepsExpired(p: Store, c: Clinic, now: int, k: nat)
    requires k < |p.clinics| && !p.clinics[k].isActive && p.clinics[k].subscriptionStatus == "expired"
    ensures k < |CheckClinic(p, c, now).clinics|
    ensures !CheckClinic(p, c, now).clinics[k].isActive
    ensures CheckClinic(p, c, now).clinics[k].subscriptionStatus == "expired"
  {
    CheckClinicFrame(p, c, now);
    var r := CheckClinic(p, c, now);
    assert SameOrExpired(p.clinics[k], r.clinics[k]);
  }

  /** A pass that meets an active clinic whose trial has ended leaves that clinic's record
      deactivated with subscription status "expired". */
  lemma {:induction false} PassExpiresEndedTrial(s: Store, snapshot: seq<Clinic>, now: int, m: nat, k: nat)
    requires m < |snapshot| && snapshot[m].isActive
    requires OnDatedTrial(snapshot[m]) && snapshot[m].trialEndDate.value <= now
    requires ClinicIndex(s.clinics, snapshot[m].id) == Some(k)
    ensures k < |Pass(s, snapshot, now).clinics|
    ensures !Pass(s, snapshot, now).clinics[k].isActive
    ensures Pass(s, snapshot, now).clinics[k].subscriptionStatus == "expired"
    decreases |snapshot|
  {
    var n := |snapshot| - 1;
    var init := snapshot[..n];
    assert Pass(s, snapshot, now) == CheckClinic(Pass(s, init, now), snapshot[n], now);
    if m < n {
      assert init[m] == snapshot[m];
      PassExpiresEndedTrial(s, init, now, m, k);
      CheckClinicKeepsExpired(Pass(s, init, now), snapshot[n], now, k);
    } else {
      assert m == n;
      var c := snapshot[m];
      assert c.isActive && OnDatedTrial(c) && c.trialEndDate.value <= now;
      CheckAfterPassExpires(s, init, c, now, k);
    }
  }

  /** Checking a clinic whose trial has ended, after any pass, expires its record: the pass
      keeps the clinic table's ids in place, so the record is still found at `k`. */
  lemma CheckAfterPassExpires(s: Store, init: seq<Clinic>, c: Clinic, now: int, k: nat)
    requires c.isActive && OnDatedTrial(c) && c.trialEndDate.value <= now
    requires ClinicIndex(s.clinics, c.id) == Some(k)
    ensures k < |CheckClinic(Pass(s, init, now), c, now).clinics|
    ensures !CheckClinic(Pass(s, init, now), c, now).clinics[k].isActive
    ensures CheckClinic(Pass(s, init, now), c, now).clinics[k].subscriptionStatus == "expired"
  {
    var p := Pass(s, init, now);
    PassFrame(s, init, now);
    forall j | 0 <= j < |s.clinics| ensures s.clinics[j].id == p.clinics[j].id {
      assert SameOrExpired(s.clinics[j], p.clinics[j]);
    }
    ClinicIndexSameIds(s.clinics, p.clinics, c.id);
    CheckClinicExpiresEndedTrial(p, c, now, k);
  }

  // ---- What a pass records ----------------------------------------------------------------

  /** Every record of `a` is still in `b`, at the same position, with the same key, status and
      creation time: later steps never undo a recency match. */
  predicate Persists(a: seq<Alert>, b: seq<Alert>) {
    |a| <= |b| &&
    forall j :: 0 <= j < |a| ==> SameKey(a[j], b[j]) && b[j].status == a[j].status && b[j].createdAt == a[j].createdAt
  }

  lemma PersistsTrans(a: seq<Alert>, b: seq<Alert>, c: seq<Alert>)
    requires Persists(a, b) && Persists(b, c)
    ensures Persists(a, c)
  {
    forall j | 0 <= j < |a|
      ensures SameKey(a[j], c[j]) && c[j].status == a[j].status && c[j].createdAt == a[j].createdAt
    {
      assert SameKey(a[j], b[j]) && SameKey(b[j], c[j]);
    }
  }

  /** A record that answers the recency lookup keeps answering it in a table it persists into. */
  lemma PersistsKeepsRecent(a: seq<Alert>, b: seq<Alert>, clinicId: string, category: Category,
                            alertType: AlertType, now: int)
    requires Persists(a, b)
    requires RecentAlertIndex(a, clinicId, category, alertType, now).Some?
    ensures RecentAlertIndex(b, clinicId, category, alertType, now).Some?
  {
    var j := RecentAlertIndex(a, clinicId, category, alertType, now).value;
    assert SameKey(a[j], b[j]);
    assert IsRecentMatch(b[j], clinicId, category, alertType, now);
  }

  /** `createAlert` keeps every record where it was, with its key, status and creation time:
      with keyed ids the merge lands on a record of the found alert's key. */
  lemma CreateAlertPersists(s: Store, clinicId: string, input: AlertInput, now: int)
    requires KeyedIds(s.alerts)
    ensures Persists(s.alerts, CreateAlert(s, clinicId, input, now).0.alerts)
  {
    var t := CreateAlert(s, clinicId, input, now).0.alerts;
    match RecentAlertIndex(s.alerts, clinicId, input.category, input.alertType, now)
    case Some(i) =>
      var e := s.alerts[i];
      var k := AlertIndex(s.alerts, e.id).value;
      var a := s.alerts[k];
      assert a.id == e.id;
      AlertKeyInjective(a.clinicId, a.category, a.alertType, e.clinicId, e.category, e.alertType);
      var y := MergedAlert(a, input, now, CountOrOne(e.count) + 1);
      assert t == s.alerts[k := y];
      UpdateOnePersists(s.alerts, k, y);
    case None =>
      assert t == s.alerts + [NewAlert(clinicId, input, now)];
  }

  /** Rewriting one record without changing its key, status or creation time persists the table. */
  lemma UpdateOnePersists(a: seq<Alert>, k: nat, y: Alert)
    requires k < |a| && SameKey(y, a[k]) && y.status == a[k].status && y.createdAt == a[k].createdAt
    ensures Persists(a, a[k := y])
  {
  }

  /** After `createAlert`, an alert of the clinic, category and type answers the recency lookup:
      the record it merged into, or the one it added. */
  lemma CreateAlertRecords(s: Store, clinicId: string, input: AlertInput, now: int)
    requires KeyedIds(s.alerts)
    ensures RecentAlertIndex(CreateAlert(s, clinicId, input, now).0.alerts, clinicId, input.category,
      input.alertType, now).Some?
  {
    var t := CreateAlert(s, clinicId, input, now).0.alerts;
    if RecentAlertIndex(s.alerts, clinicId, input.category, input.alertType, now).Some? {
      CreateAlertPersists(s, clinicId, input, now);
      PersistsKeepsRecent(s.alerts, t, clinicId, input.category, input.alertType, now);
    } else {
      assert IsRecentMatch(t[|s.alerts|], clinicId, input.category, input.alertType, now);
    }
  }

  /** Checking one clinic keeps every record in place, with its key, status and creation time. */
  lemma CheckClinicPersists(s: Store, c: Clinic, now: int)
    requires DedupInvariant(s.alerts, now)
    ensures Persists(s.alerts, CheckClinic(s, c, now).alerts)
  {
    if c.isActive {
      var s1 := CheckUsage(s, c, now);
      if UsageAlert(c).Some? {
        CreateAlertPersists(s, c.id, UsageAlert(c).value, now);
        CreateAlertKeepsInvariant(s, c.id, UsageAlert(c).value, now);
      }
      assert Persists(s.alerts, s1.alerts) && KeyedIds(s1.alerts);
      if TrialAlert(c, now).Some? {
        CreateAlertPersists(s1, c.id, TrialAlert(c, now).value, now);
        PersistsTrans(s.alerts, s1.alerts, CheckClinic(s, c, now).alerts);
      }
    }
  }

  /** Checking an active clinic records the usage alert and the trial alert that are due:
      afterwards each is answered by the recency lookup of its key. */
  lemma CheckClinicRecords(s: Store, c: Clinic, now: int)
    requires DedupInvariant(s.alerts, now) && c.isActive
    ensures var r := CheckClinic(s, c, now);
      (UsageAlert(c).Some? ==>
        RecentAlertIndex(r.alerts, c.id, Usage, UsageAlert(c).value.alertType, now).Some?) &&
      (TrialAlert(c, now).Some? ==>
        RecentAlertIndex(r.alerts, c.id, Trial, TrialAlert(c, now).value.alertType, now).Some?)
  {
    var s1 := CheckUsage(s, c, now);
    var r := CheckClinic(s, c, now);
    if UsageAlert(c).Some? {
      CreateAlertRecords(s, c.id, UsageAlert(c).value, now);
      CreateAlertKeepsInvariant(s, c.id, UsageAlert(c).value, now);
    }
    assert KeyedIds(s1.alerts);
    if TrialAlert(c, now).Some? {
      CreateAlertRecords(s1, c.id, TrialAlert(c, now).value, now);
      if UsageAlert(c).Some? {
        CreateAlertPersists(s1, c.id, TrialAlert(c, now).value, now);
        PersistsKeepsRecent(s1.alerts, r.alerts, c.id, Usage, UsageAlert(c).value.alertType, now);
      }
    }
  }

  /** A pass records every due alert: for each clinic of the snapshot that is active when the
      pass meets it, the usage and trial alerts it calls for are answered by the recency
      lookup at the end of the pass. */
  lemma {:induction false} PassRecordsDueAlerts(s: Store, snapshot: seq<Clinic>, now: int, m: nat)
    requires DedupInvariant(s.alerts, now)
    requires m < |snapshot| && snapshot[m].isActive
    ensures var r := Pass(s, snapshot, now);
      var c := snapshot[m];
      (UsageAlert(c).Some? ==>
        RecentAlertIndex(r.alerts, c.id, Usage, UsageAlert(c).value.alertType, now).Some?) &&
      (TrialAlert(c, now).Some? ==>
        RecentAlertIndex(r.alerts, c.id, Trial, TrialAlert(c, now).value.alertType, now).Some?)
    decreases |snapshot|
  {
    var n := |snapshot| - 1;
    var init := snapshot[..n];
    var c := snapshot[m];
    var p := Pass(s, init, now);
    var r := Pass(s, snapshot, now);
    assert r == CheckClinic(p, snapshot[n], now);
    PassKeepsInvariant(s, init, now);
    if m < n {
      assert init[m] == c;
      PassRecordsDueAlerts(s, init, now, m);
      CheckClinicPersists(p, snapshot[n], now);
      if UsageAlert(c).Some? {
        PersistsKeepsRecent(p.alerts, r.alerts, c.id, Usage, UsageAlert(c).value.alertType, now);
      }
      if TrialAlert(c, now).Some? {
        PersistsKeepsRecent(p.alerts, r.alerts, c.id, Trial, TrialAlert(c, now).value.alertType, now);
      }
    } else {
      assert m == n;
      CheckClinicRecords(p, c, now);
    }
  }

  /** `checkAllClinics` leaves every active clinic with the usage and trial alerts it calls for. */
  lemma CheckAllClinicsRecordsDueAlerts(s: Store, now: int, m: nat)
    requires DedupInvariant(s.alerts, now)
    requires m < |s.clinics| && s.clinics[m].isActive
    ensures var r := CheckAllClinics(s, now);
      var c := s.clinics[m];
      (UsageAlert(c).Some? ==>
        RecentAlertIndex(r.alerts, c.id, Usage, UsageAlert(c).value.alertType, now).Some?) &&
      (TrialAlert(c, now).Some? ==>
        RecentAlertIndex(r.alerts, c.id, Trial, TrialAlert(c, now).value.alertType, now).Some?)
  {
    PassRecordsDueAlerts(s, s.clinics, now, m);
  }
}
