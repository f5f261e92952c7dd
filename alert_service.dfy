/** The alert engine object: its tables, its running flag and interval timer, and the methods
    the dashboard calls. Each state-changing method is proved to move the tables exactly as the
    corresponding function of `AlertStore` does, so the lemmas proved about those functions
    (deduplication invariant, frames, expiry) hold of the object as well. */
module AlertService {
  import opened Optional
  import opened AlertModel
  import opened AlertRules
  import opened AlertStore
  import opened AlertQueries
  import opened AlertInvariants

  /** The result of `getAlertStats`. */
  datatype Stats = Stats(total: nat, active: nat, critical: nat, warning: nat, byCategory: map<Category, nat>)

  class AlertEngine {
    var clinics: seq<Clinic>
    var alerts: seq<Alert>
    var usage: seq<UsageEvent>
    var toasts: seq<Toast>
    /** `isRunning` */
    var isRunning: bool
    /** `checkIntervalId != null`: the five-minute interval is armed. */
    var timerArmed: bool

    /** The interval is armed exactly while the engine runs. */
    ghost predicate Valid()
      reads this
    {
      timerArmed == isRunning
    }

    /** The tables as one value, the state the functions of `AlertStore` act on. */
    function Tables(): Store
      reads this
    {
      Store(clinics, alerts, usage, toasts)
    }

    constructor (initialClinics: seq<Clinic>, initialAlerts: seq<Alert>, initialUsage: seq<UsageEvent>)
      ensures Valid() && !isRunning
      ensures Tables() == Store(initialClinics, initialAlerts, initialUsage, [])
    {
      clinics, alerts, usage, toasts := initialClinics, initialAlerts, initialUsage, [];
      isRunning, timerArmed := false, false;
    }

    /** `start`: does nothing when already running; otherwise arms the interval and runs a first pass. */
    method Start(now: int)
      requires Valid()
      modifies this
      ensures Valid() && isRunning
      ensures Tables() == if old(isRunning) then old(Tables()) else AlertStore.CheckAllClinics(old(Tables()), now)
    {
      if isRunning {
        return;
      }
      isRunning := true;
      timerArmed := true;
      CheckAllClinics(now);
    }

    /** `stop`: disarms the interval and clears the flag; the tables are untouched. */
    method Stop()
      modifies this`isRunning, this`timerArmed
      ensures Valid() && !isRunning && !timerArmed
    {
      if timerArmed {
        timerArmed := false;
      }
      isRunning := false;
    }

    /** One firing of the interval: a full pass while the timer is armed. */
    method Tick(now: int)
      requires Valid()
      modifies this
      ensures Valid() && isRunning == old(isRunning)
      ensures Tables() == if timerArmed then AlertStore.CheckAllClinics(old(Tables()), now) else old(Tables())
    {
      if timerArmed {
        CheckAllClinics(now);
      }
    }

    /** `checkAllClinics`: both checks for every active clinic of a snapshot of the clinics
        table, in table order. */
    method CheckAllClinics(now: int)
      modifies this
      ensures Tables() == AlertStore.CheckAllClinics(old(Tables()), now)
      ensures isRunning == old(isRunning) && timerArmed == old(timerArmed)
      ensures DedupInvariant(old(alerts), now) ==> DedupInvariant(alerts, now)
    {
      var snapshot := clinics;
      ghost var s0 := Tables();
      var i := 0;
      while i < |snapshot|
        invariant 0 <= i <= |snapshot|
        invariant Tables() == Pass(s0, snapshot[..i], now)
        invariant isRunning == old(isRunning) && timerArmed == old(timerArmed)
      {
        var clinic := snapshot[i];
        ghost var before := Tables();
        if clinic.isActive {
          CheckClinicUsage(clinic, now);
          CheckTrialStatus(clinic, now);
        }
        assert Tables() == CheckClinic(before, clinic, now);
        assert snapshot[..i + 1][..i] == snapshot[..i];
        assert Pass(s0, snapshot[..i + 1], now) == CheckClinic(Pass(s0, snapshot[..i], now), clinic, now);
        i := i + 1;
      }
      assert snapshot[..i] == snapshot;
      if DedupInvariant(s0.alerts, now) {
        PassKeepsInvariant(s0, snapshot, now);
      }
    }

    /** `checkClinicUsage`: raises the usage alert the clinic's counters call for, if any. */
    method CheckClinicUsage(clinic: Clinic, now: int)
      modifies this
      ensures Tables() == CheckUsage(old(Tables()), clinic, now)
      ensures isRunning == old(isRunning) && timerArmed == old(timerArmed)
    {
      match UsageAlert(clinic)
      case None =>
      case Some(input) =>
        var _ := CreateAlert(clinic.id, input, now);
    }

    /** `checkTrialStatus`: raises the trial alert the end date calls for, if any, and on expiry
        marks the clinic expired and inactive. */
    method CheckTrialStatus(clinic: Clinic, now: int)
      modifies this
      ensures Tables() == CheckTrial(old(Tables()), clinic, now)
      ensures isRunning == old(isRunning) && timerArmed == old(timerArmed)
    {
      match TrialAlert(clinic, now)
      case None =>
      case Some(input) =>
        var _ := CreateAlert(clinic.id, input, now);
        if input.alertType == Critical {
          clinics := ExpireClinic(clinics, clinic.id);
        }
    }

    /** `createAlert`: merges into the recent active alert of the same key, returning it as it
        was before the merge, or adds a new alert with a toast and a usage-log entry. */
    method CreateAlert(clinicId: string, input: AlertInput, now: int) returns (r: Alert)
      modifies this
      ensures (Tables(), r) == AlertStore.CreateAlert(old(Tables()), clinicId, input, now)
      ensures isRunning == old(isRunning) && timerArmed == old(timerArmed)
      ensures DedupInvariant(old(alerts), now) ==> DedupInvariant(alerts, now)
    {
      ghost var s0 := Tables();
      ghost var found := RecentAlertIndex(alerts, clinicId, input.category, input.alertType, now);
      var existing := RecentAlert(alerts, clinicId, input.category, input.alertType, now);
      assert existing == if found.Some? then Some(alerts[found.value]) else None;
      if existing.Some? {
        var count := CountOrOne(existing.value.count) + 1;
        alerts := UpdateFirst(alerts, HasAlertId(existing.value.id), MergeWith(input, now, count));
        r := existing.value;
      } else {
        r := NewAlert(clinicId, input, now);
        alerts := alerts + [r];
        toasts := toasts + [CreationToast(input)];
        usage := usage + [CreationEvent(clinicId, input, now)];
      }
      if DedupInvariant(s0.alerts, now) {
        CreateAlertKeepsInvariant(s0, clinicId, input, now);
      }
    }

    /** `acknowledgeAlert`: flags the alert and logs it; an unknown id changes nothing. */
    method AcknowledgeAlert(alertId: string, now: int)
      modifies this
      ensures Tables() == AlertStore.AcknowledgeAlert(old(Tables()), alertId, now)
      ensures isRunning == old(isRunning) && timerArmed == old(timerArmed)
    {
      match AlertIndex(alerts, alertId)
      case None =>
      case Some(k) =>
        var alert := alerts[k];
        alerts := UpdateFirst(alerts, HasAlertId(alertId), MarkAcknowledged(now));
        usage := usage + [UsageEvent(alert.clinicId, AlertAcknowledged(alertId, alert.alertType, alert.category), now)];
    }

    /** `dismissAlert`: resolves the alert and logs it; an unknown id changes nothing. */
    method DismissAlert(alertId: string, now: int)
      modifies this
      ensures Tables() == AlertStore.DismissAlert(old(Tables()), alertId, now)
      ensures isRunning == old(isRunning) && timerArmed == old(timerArmed)
    {
      match AlertIndex(alerts, alertId)
      case None =>
      case Some(k) =>
        var alert := alerts[k];
        alerts := UpdateFirst(alerts, HasAlertId(alertId), MarkResolved(now));
        usage := usage + [UsageEvent(alert.clinicId, AlertDismissed(alertId, alert.alertType, alert.category), now)];
    }

    /** `getAllActiveAlerts`: every active alert, newest first. */
    method GetAllActiveAlerts() returns (r: seq<Alert>)
      ensures NewestFirst(r)
      ensures multiset(r) == multiset(ActiveAlerts(alerts))
      ensures forall a :: a in r <==> a in alerts && a.status == Active
    {
      r := AllActiveAlerts(alerts);
    }

    /** `getClinicAlerts`: the clinic's active alerts in table order, or all its alerts newest first. */
    method GetClinicAlerts(clinicId: string, activeOnly: bool := true) returns (r: seq<Alert>)
      ensures forall a :: a in r <==> a in alerts && a.clinicId == clinicId && (activeOnly ==> a.status == Active)
      ensures activeOnly ==> r == Filter(alerts, ActiveOfClinic(clinicId))
      ensures !activeOnly ==> NewestFirst(r) && multiset(r) == multiset(Filter(alerts, OfClinic(clinicId)))
    {
      r := ClinicAlerts(alerts, clinicId, activeOnly);
    }

    /** `getAlertStats`: the totals, the active alerts split by type, and a per-category tally
        that holds an entry exactly for the categories with an active alert. */
    method GetAlertStats() returns (st: Stats)
      ensures st.total == |alerts| && st.active == |ActiveAlerts(alerts)|
      ensures st.critical == TypeCount(alerts, Critical) && st.warning == TypeCount(alerts, Warning)
      ensures st.critical + st.warning == st.active
      ensures forall c :: c in st.byCategory <==> CategoryCount(alerts, c) > 0
      ensures forall c :: c in st.byCategory ==> st.byCategory[c] == CategoryCount(alerts, c)
    {
      var active := ActiveAlerts(alerts);
      var byCategory := GroupByCategory(active);
      TypeCountsCoverActive(alerts);
      st := Stats(|alerts|, |active|, |Filter(active, OfType(Critical))|, |Filter(active, OfType(Warning))|, byCategory);
    }
  }
}
