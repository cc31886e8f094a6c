/**
 Free trials: trial_grants, the trial fields cached on users, and device fingerprints
 (src/subscription/trial.service.ts), with the other writers of the trial fields: verifySession
 (src/auth/auth.service.ts) and the Stripe and Apple services.
 */
module Trials {
  import opened Common
  import Calendar

  const TRIAL_DURATION_DAYS: int := 30
  const TRIAL_TIER_NAME: string := "free_trial"
  const UNKNOWN_DEVICE: string := "unknown"

  type RequestId = nat
  type DeviceHash = string

  /** users.trialActive, trialStartsAt, trialEndsAt, trialTier */
  datatype Fields = Fields(active: bool, startsAt: Option<int>, endsAt: Option<int>, tier: Option<string>)

  datatype Grant = Grant(deviceHash: DeviceHash, grantedAt: int, expiresAt: int)

  /** The three tables; the unique keys are user id, trial_grants.user_id and trial_device_fingerprints.hash. */
  datatype Tables = Tables(users: map<UserId, Fields>, grants: map<UserId, Grant>, fingerprints: map<DeviceHash, UserId>)

  datatype GrantResult = Granted(trialEndsAt: int) | FeatureDisabled | ExistingGrant(trialEndsAt: int)
                       | NoSubscription | DeviceHashExists | UserMissing

  // ---------- The operations on the tables ----------

  function GrantedFields(startsAt: int, endsAt: int, now: int): Fields {
    var active := now < endsAt;
    Fields(active, Some(startsAt), Some(endsAt), if active then Some(TRIAL_TIER_NAME) else None)
  }

  predicate Identifies(deviceHash: Option<DeviceHash>) {
    deviceHash.Some? && deviceHash.value != ""
  }

  /** What grantIfEligible answers. `now` was read before the transaction began; a write for a missing user aborts it. */
  function GrantOutcome(t: Tables, enabled: bool, u: UserId, deviceHash: Option<DeviceHash>, now: int,
                        subscribed: bool): GrantResult {
    if !enabled then FeatureDisabled
    else if u in t.grants then (if u in t.users then ExistingGrant(t.grants[u].expiresAt) else UserMissing)
    else if !subscribed then NoSubscription
    else if Identifies(deviceHash) && deviceHash.value in t.fingerprints && t.fingerprints[deviceHash.value] != u
      then DeviceHashExists
    else if u !in t.users then UserMissing
    else Granted(now + TRIAL_DURATION_DAYS * Calendar.MS_PER_DAY)
  }

  /** What it writes; `grantedAt` is the database's own clock. */
  function AfterGrant(t: Tables, enabled: bool, u: UserId, deviceHash: Option<DeviceHash>, now: int,
                      grantedAt: int, subscribed: bool): Tables {
    match GrantOutcome(t, enabled, u, deviceHash, now, subscribed)
    case ExistingGrant(_) => AfterReconcile(t, u, now)
    case Granted(expiresAt) =>
      Tables(t.users[u := Fields(true, Some(now), Some(expiresAt), Some(TRIAL_TIER_NAME))],
             t.grants[u := Grant(if deviceHash.Some? then deviceHash.value else UNKNOWN_DEVICE, grantedAt, expiresAt)],
             if Identifies(deviceHash) then t.fingerprints[deviceHash.value := u] else t.fingerprints)
    case _ => t
  }

  /** Copying an existing grant to the user row, as grantIfEligible and status do. */
  function AfterReconcile(t: Tables, u: UserId, now: int): Tables {
    if u !in t.users || u !in t.grants then t
    else t.(users := t.users[u := GrantedFields(t.grants[u].grantedAt, t.grants[u].expiresAt, now)])
  }

  function AfterExpire(t: Tables, u: UserId, now: int): Tables {
    if u in t.users && t.users[u].active && t.users[u].endsAt.Some? && now >= t.users[u].endsAt.value
    then t.(users := t.users[u := t.users[u].(active := false, tier := None)])
    else t
  }

  /** verifySession finds the trial over when this holds of the user row it has read. */
  predicate LooksOver(f: Fields, now: int) {
    f.active && f.endsAt.Some? && f.endsAt.value < now
  }

  /** Its write, a separate statement. The tier stays. */
  function AfterVerifyWrite(t: Tables, u: UserId): Tables {
    if u in t.users then t.(users := t.users[u := t.users[u].(active := false)]) else t
  }

  /** A Stripe or Apple trial is reflected on a user that shows no trial at all. */
  function AfterReflect(t: Tables, u: UserId, startsAt: int, endsAt: int): Tables {
    if u in t.users && !t.users[u].active && t.users[u].endsAt.None? && t.users[u].startsAt.None?
    then t.(users := t.users[u := Fields(true, Some(startsAt), Some(endsAt), Some(TRIAL_TIER_NAME))])
    else t
  }

  function AfterTouch(t: Tables, u: UserId, deviceHash: Option<DeviceHash>): Tables {
    if Identifies(deviceHash) then t.(fingerprints := t.fingerprints[deviceHash.value := u]) else t
  }

  datatype Status = Status(trialActive: bool, trialEndsAt: Option<int>, daysRemaining: nat, tier: Option<string>)

  /** What status reports from the user row it reads, the grant it finds if it looks for one, and its clock reading. */
  function StatusReport(f: Fields, grant: Option<Grant>, now: int): Status {
    var active := f.active && f.endsAt.Some? && now < f.endsAt.value;
    if !active && f.endsAt.None? && grant.Some? then
      var still := now < grant.value.expiresAt;
      Status(still, Some(grant.value.expiresAt),
             Calendar.ComputeTrialDaysRemaining(Some(grant.value.expiresAt), now),
             if still then Some(TRIAL_TIER_NAME) else None)
    else
      Status(active, f.endsAt, Calendar.ComputeTrialDaysRemaining(f.endsAt, now), f.tier)
  }

  // ---------- The service in place ----------

  class TrialService {
    var users: map<UserId, Fields>
    var grants: map<UserId, Grant>
    var fingerprints: map<DeviceHash, UserId>

    constructor (t: Tables)
      ensures Snapshot() == t
    {
      users, grants, fingerprints := t.users, t.grants, t.fingerprints;
    }

    function Snapshot(): Tables
      reads this
    {
      Tables(users, grants, fingerprints)
    }

    method GrantIfEligible(enabled: bool, u: UserId, deviceHash: Option<DeviceHash>, now: int, grantedAt: int,
                           subscribed: bool) returns (result: GrantResult)
      modifies this
      ensures result == GrantOutcome(old(Snapshot()), enabled, u, deviceHash, now, subscribed)
      ensures Snapshot() == AfterGrant(old(Snapshot()), enabled, u, deviceHash, now, grantedAt, subscribed)
      ensures var isDevice := deviceHash.Some? && deviceHash.value != "";
              result.Granted? <==>
                && enabled && u in old(users) && u !in old(grants) && subscribed
                && !(isDevice && deviceHash.value in old(fingerprints) && old(fingerprints)[deviceHash.value] != u)
      ensures result.Granted? ==>
                && result.trialEndsAt == now + 2592000000
                && grants == old(grants)[u := Grant(if deviceHash.Some? then deviceHash.value else "unknown", grantedAt,
                                                    now + 2592000000)]
                && users == old(users)[u := Fields(true, Some(now), Some(now + 2592000000), Some("free_trial"))]
                && fingerprints == if deviceHash.Some? && deviceHash.value != "" then old(fingerprints)[deviceHash.value := u]
                                   else old(fingerprints)
      ensures !result.Granted? ==> grants == old(grants) && fingerprints == old(fingerprints)
      ensures !result.Granted? && !result.ExistingGrant? ==> users == old(users)
      ensures result.ExistingGrant? ==>
                && u in old(grants) && result.trialEndsAt == old(grants)[u].expiresAt
                && users == old(users)[u := Fields(now < result.trialEndsAt, Some(old(grants)[u].grantedAt),
                                                   Some(result.trialEndsAt),
                                                   if now < result.trialEndsAt then Some("free_trial") else None)]
    {
      if !enabled {
        return FeatureDisabled;
      }
      var expiresAt := Calendar.AddDaysUtc(now, TRIAL_DURATION_DAYS);
      Calendar.AddDaysIsExact(now, TRIAL_DURATION_DAYS);
      if u in grants {
        if u !in users {
          return UserMissing;
        }
        var grant := grants[u];
        var grantStillActive := now < grant.expiresAt;
        users := users[u := Fields(grantStillActive, Some(grant.grantedAt), Some(grant.expiresAt),
                                   if grantStillActive then Some(TRIAL_TIER_NAME) else None)];
        return ExistingGrant(grant.expiresAt);
      }
      if !subscribed {
        return NoSubscription;
      }
      var claimed := fingerprints;
      if deviceHash.Some? && deviceHash.value != "" {
        if deviceHash.value in fingerprints && fingerprints[deviceHash.value] != u {
          return DeviceHashExists;
        }
        claimed := fingerprints[deviceHash.value := u];
      }
      if u !in users {
        return UserMissing;
      }
      fingerprints := claimed;
      grants := grants[u := Grant(if deviceHash.Some? then deviceHash.value else UNKNOWN_DEVICE, grantedAt, expiresAt)];
      users := users[u := Fields(true, Some(now), Some(expiresAt), Some(TRIAL_TIER_NAME))];
      return Granted(expiresAt);
    }

    method ExpireIfNeeded(u: UserId, now: int)
      modifies this
      ensures Snapshot() == AfterExpire(old(Snapshot()), u, now)
    {
      if u !in users || !users[u].active || users[u].endsAt.None? {
        return;
      }
      if !(now < users[u].endsAt.value) {
        users := users[u := users[u].(active := false, tier := None)];
      }
    }

    /** status, with nothing between its statements; the two clock readings are in order. */
    method GetStatus(u: UserId, now1: int, now2: int) returns (status: Option<Status>)
      requires now1 <= now2
      modifies this
      ensures status.None? <==> u !in old(users)
      ensures var expired := AfterExpire(old(Snapshot()), u, now1);
              u in old(users) ==>
                && status == Some(StatusReport(expired.users[u], if u in grants then Some(grants[u]) else None, now2))
                && Snapshot() == (if expired.users[u].endsAt.None? then AfterReconcile(expired, u, now2) else expired)
    {
      ExpireIfNeeded(u, now1);
      if u !in users {
        return None;
      }
      var user := users[u];
      var trialEndsAt := user.endsAt;
      var trialActive := user.active && trialEndsAt.Some? && now2 < trialEndsAt.value;
      var trialTier := user.tier;
      if !trialActive && trialEndsAt.None? {
        if u in grants {
          var grant := grants[u];
          trialEndsAt := Some(grant.expiresAt);
          trialActive := now2 < grant.expiresAt;
          trialTier := if trialActive then Some(TRIAL_TIER_NAME) else None;
          users := users[u := Fields(trialActive, Some(grant.grantedAt), Some(grant.expiresAt), trialTier)];
        }
      }
      var daysRemaining := Calendar.ComputeTrialDaysRemaining(trialEndsAt, now2);
      return Some(Status(trialActive, trialEndsAt, daysRemaining, trialTier));
    }

    /** The trial part of verifySession, with nothing between its read and its write; None for an unknown user. */
    method VerifySessionTrial(u: UserId, now: int) returns (valid: Option<bool>)
      modifies this
      ensures valid.None? <==> u !in old(users)
      ensures u in old(users) ==>
                && valid == Some(old(users)[u].active && !LooksOver(old(users)[u], now))
                && Snapshot() == if LooksOver(old(users)[u], now) then AfterVerifyWrite(old(Snapshot()), u) else old(Snapshot())
      ensures u in old(users) ==>
                (valid == Some(true) <==>
                   old(users)[u].active && (old(users)[u].endsAt.Some? ==> now <= old(users)[u].endsAt.value))
      ensures u !in old(users) ==> Snapshot() == old(Snapshot())
    {
      if u !in users {
        return None;
      }
      var user := users[u];
      valid := Some(false);
      if user.active {
        if user.endsAt.None? || user.endsAt.value >= now {
          valid := Some(true);
        } else {
          users := users[u := users[u].(active := false)];
        }
      }
    }

    method TouchDeviceFingerprint(u: UserId, deviceHash: Option<DeviceHash>)
      modifies this
      ensures Snapshot() == AfterTouch(old(Snapshot()), u, deviceHash)
    {
      if deviceHash.None? || deviceHash.value == "" {
        return;
      }
      fingerprints := fingerprints[deviceHash.value := u];
    }

    method ReflectTrial(u: UserId, startsAt: int, endsAt: int)
      modifies this
      ensures Snapshot() == AfterReflect(old(Snapshot()), u, startsAt, endsAt)
    {
      if u in users && !users[u].active && users[u].endsAt.None? && users[u].startsAt.None? {
        users := users[u := Fields(true, Some(startsAt), Some(endsAt), Some(TRIAL_TIER_NAME))];
      }
    }
  }

  // ---------- Every run ----------

  /** The tables, a clock that never goes back, and the verifySession requests between read and write; `entitled` records,
      for the proofs only, who has asked for a trial with trials enabled and a subscription in force. */
  datatype State = State(t: Tables, clock: int, verifying: map<RequestId, UserId>, entitled: set<UserId>)

  ghost predicate GrantsTo(s: State, s': State, enabled: bool, u: UserId, deviceHash: Option<DeviceHash>, now: int,
                           grantedAt: int, subscribed: bool) {
    && now <= s.clock
    && s' == s.(t := AfterGrant(s.t, enabled, u, deviceHash, now, grantedAt, subscribed),
                entitled := if enabled && subscribed then s.entitled + {u} else s.entitled)
  }

  ghost predicate GrantStep(s: State, s': State) {
    exists enabled, u, deviceHash, now, grantedAt, subscribed ::
      GrantsTo(s, s', enabled, u, deviceHash, now, grantedAt, subscribed)
  }

  /** status writes what it computed from an earlier clock reading. */
  ghost predicate ReconcileStep(s: State, s': State) {
    exists u, now :: now <= s.clock && s' == s.(t := AfterReconcile(s.t, u, now))
  }

  ghost predicate ExpireStep(s: State, s': State) {
    exists u, now :: now <= s.clock && s' == s.(t := AfterExpire(s.t, u, now))
  }

  ghost predicate ReflectStep(s: State, s': State) {
    exists u, startsAt, endsAt :: s' == s.(t := AfterReflect(s.t, u, startsAt, endsAt))
  }

  ghost predicate VerifyRead(s: State, s': State, r: RequestId, u: UserId) {
    r !in s.verifying && u in s.t.users && LooksOver(s.t.users[u], s.clock) && s' == s.(verifying := s.verifying[r := u])
  }

  ghost predicate VerifyWrite(s: State, s': State, r: RequestId) {
    && r in s.verifying
    && s' == s.(t := AfterVerifyWrite(s.t, s.verifying[r]), verifying := s.verifying - {r})
  }

  predicate HasUnexpiredGrant(s: State, u: UserId) {
    u in s.t.grants && s.clock < s.t.grants[u].expiresAt
  }

  /** Some other user's grant was made on the device. */
  ghost predicate IsTakenDevice(t: Tables, u: UserId, h: DeviceHash) {
    IsDevice(h) && exists v :: v in t.grants && t.grants[v].deviceHash == h && v != u
  }

  ghost predicate TouchStep(s: State, s': State, u: UserId, h: DeviceHash) {
    s' == s.(t := AfterTouch(s.t, u, Some(h)))
  }

  ghost predicate SignUp(s: State, s': State) {
    exists u: UserId :: u !in s.t.users && s' == s.(t := s.t.(users := s.t.users[u := Fields(false, None, None, None)]))
  }

  ghost predicate Tick(s: State, s': State) {
    exists later :: s.clock <= later && s' == s.(clock := later)
  }

  /** Every writer of the trial fields. `late` admits a write of verifySession that meets an unexpired grant, `takeover` a
      touch of a device that another user's grant was made on. */
  ghost predicate Next(s: State, s': State, late: bool, takeover: bool) {
    || GrantStep(s, s') || ReconcileStep(s, s') || ExpireStep(s, s') || ReflectStep(s, s')
    || SignUp(s, s') || Tick(s, s')
    || (exists r, u :: VerifyRead(s, s', r, u))
    || (exists r :: VerifyWrite(s, s', r) && (late || !HasUnexpiredGrant(s, s.verifying[r])))
    || (exists u, h :: TouchStep(s, s', u, h) && (takeover || !IsTakenDevice(s.t, u, h)))
  }

  /** The user row shows the grant's end. */
  ghost predicate ShowsEnds(t: Tables) {
    forall u :: u in t.grants ==> u in t.users && t.users[u].endsAt == Some(t.grants[u].expiresAt)
  }

  /** The user row caches the grant: same end, and inactive only once the grant has expired. */
  ghost predicate Caches(s: State, u: UserId) {
    && u in s.t.users && s.t.users[u].endsAt.Some?
    && (u in s.t.grants ==>
          && s.t.users[u].endsAt == Some(s.t.grants[u].expiresAt)
          && (!s.t.users[u].active ==> s.clock >= s.t.grants[u].expiresAt))
  }

  ghost predicate CacheInv(s: State) {
    forall u :: u in s.t.grants ==> Caches(s, u)
  }

  /** A grant's device hash is registered to the grant's user. */
  ghost predicate DeviceInv(t: Tables) {
    forall u :: u in t.grants && IsDevice(t.grants[u].deviceHash) ==>
      t.grants[u].deviceHash in t.fingerprints && t.fingerprints[t.grants[u].deviceHash] == u
  }

  predicate IsDevice(h: DeviceHash) {
    h != "" && h != UNKNOWN_DEVICE
  }

  ghost predicate GrantsKept(t: Tables, t': Tables) {
    forall u :: u in t.grants ==> u in t'.grants && t'.grants[u] == t.grants[u]
  }

  /** Every grant was asked for with trials enabled and a subscription in force. */
  ghost predicate OnlyEntitled(s: State) {
    forall u :: u in s.t.grants ==> u in s.entitled
  }

  lemma GrantKeepsInv(s: State, s': State)
    requires GrantStep(s, s')
    ensures ShowsEnds(s.t) ==> ShowsEnds(s'.t) && GrantsKept(s.t, s'.t)
    ensures CacheInv(s) ==> CacheInv(s')
    ensures DeviceInv(s.t) ==> DeviceInv(s'.t)
    ensures OnlyEntitled(s) ==> OnlyEntitled(s')
  {
    var enabled, u, deviceHash, now, grantedAt, subscribed :|
      GrantsTo(s, s', enabled, u, deviceHash, now, grantedAt, subscribed);
    var outcome := GrantOutcome(s.t, enabled, u, deviceHash, now, subscribed);
    if CacheInv(s) {
      forall v | v in s'.t.grants
        ensures Caches(s', v)
      {
        assert v != u ==> Caches(s, v);
        assert outcome.ExistingGrant? ==> Caches(s, u);
      }
    }
  }

  /** Whatever the step, the grants stay and their ends are shown; the cache is kept without harmful late writes, and the
      devices without takeovers. */
  lemma StepKeepsInv(s: State, s': State, late: bool, takeover: bool)
    requires ShowsEnds(s.t) && Next(s, s', late, takeover)
    ensures ShowsEnds(s'.t) && GrantsKept(s.t, s'.t)
    ensures OnlyEntitled(s) ==> OnlyEntitled(s')
    ensures CacheInv(s) && !late ==> CacheInv(s')
    ensures DeviceInv(s.t) && !takeover ==> DeviceInv(s'.t)
  {
    if GrantStep(s, s') {
      GrantKeepsInv(s, s');
    } else if r :| VerifyWrite(s, s', r) && (late || !HasUnexpiredGrant(s, s.verifying[r])) {
      if CacheInv(s) {
        VerifyWriteKeepsCache(s, s', r);
      }
    } else if u, h :| TouchStep(s, s', u, h) && (takeover || !IsTakenDevice(s.t, u, h)) {
      TouchKeepsRest(s, s', u, h);
      if DeviceInv(s.t) {
        TouchKeepsDevices(s.t, u, h);
      }
    } else {
      OtherStepKeepsInv(s, s');
    }
  }

  lemma TouchKeepsRest(s: State, s': State, u: UserId, h: DeviceHash)
    requires TouchStep(s, s', u, h)
    ensures s'.t.users == s.t.users && s'.t.grants == s.t.grants && s'.clock == s.clock && s'.entitled == s.entitled
    ensures CacheInv(s) ==> CacheInv(s')
  {
    if CacheInv(s) {
      forall v | v in s'.t.grants
        ensures Caches(s', v)
      {
        assert Caches(s, v);
      }
    }
  }

  lemma OtherStepKeepsInv(s: State, s': State)
    requires ShowsEnds(s.t)
    requires || ReconcileStep(s, s') || ExpireStep(s, s') || ReflectStep(s, s') || SignUp(s, s') || Tick(s, s')
             || exists r, u :: VerifyRead(s, s', r, u)
    ensures ShowsEnds(s'.t) && s'.t.grants == s.t.grants && s'.t.fingerprints == s.t.fingerprints
    ensures s'.entitled == s.entitled
    ensures CacheInv(s) ==> CacheInv(s')
  {
    if CacheInv(s) {
      forall v | v in s'.t.grants
        ensures Caches(s', v)
      {
        assert Caches(s, v);
      }
    }
  }

  /** What status reports to a user with a grant: the grant's end, the calendar days up to it, and the trial tier while it is
      active. To a user without any trial it reports none. */
  lemma StatusReportsDays(t: Tables, u: UserId, now: int)
    requires ShowsEnds(t) && u in t.grants
    ensures var report := StatusReport(t.users[u], Some(t.grants[u]), now);
            var days := Calendar.DifferenceInCalendarDaysUtc(t.grants[u].expiresAt, now);
            report.daysRemaining == if days > 0 then days else 0
    ensures StatusReport(Fields(false, None, None, None), None, now) == Status(false, None, 0, None)
    ensures var late := StatusReport(Fields(false, None, None, None), Some(t.grants[u]), now);
            && late.trialEndsAt == Some(t.grants[u].expiresAt)
            && (late.trialActive <==> now < t.grants[u].expiresAt)
            && (late.tier == if late.trialActive then Some("free_trial") else None)
            && late.daysRemaining == StatusReport(t.users[u], None, now).daysRemaining
  {
  }

  /** Reconciling copies the grant: active, with the trial tier, until its end, and neither from then on. */
  lemma ReconcileShowsGrant(t: Tables, u: UserId, now: int)
    requires u in t.users && u in t.grants
    ensures var g, f := t.grants[u], AfterReconcile(t, u, now).users[u];
            && f.startsAt == Some(g.grantedAt) && f.endsAt == Some(g.expiresAt)
            && (now < g.expiresAt ==> f.active && f.tier == Some("free_trial"))
            && (now >= g.expiresAt ==> !f.active && f.tier == None)
  {
  }

  /** A reflected trial shows exactly on a user who shows no trial at all. */
  lemma ReflectedTrialShows(t: Tables, u: UserId, startsAt: int, endsAt: int)
    ensures u in t.users && t.users[u].endsAt.None? && t.users[u].startsAt.None? && !t.users[u].active ==>
              AfterReflect(t, u, startsAt, endsAt) ==
                t.(users := t.users[u := Fields(true, Some(startsAt), Some(endsAt), Some("free_trial"))])
    ensures u !in t.users || t.users[u].endsAt.Some? || t.users[u].startsAt.Some? || t.users[u].active ==>
              AfterReflect(t, u, startsAt, endsAt) == t
  {
  }

  /** Expiry checks, however often and in whatever order: two are as good as the later one. In a state of a run a check
      leaves a user with a grant active exactly until the grant's end, and the other tables alone. */
  lemma ExpiryChecks(s: State, u: UserId, now1: int, now2: int)
    requires CacheInv(s)
    ensures AfterExpire(AfterExpire(s.t, u, now1), u, now2) == AfterExpire(s.t, u, if now1 <= now2 then now2 else now1)
    ensures u in s.t.grants && s.t.users[u].active ==>
              (AfterExpire(s.t, u, now1).users[u].active <==> now1 < s.t.grants[u].expiresAt)
    ensures AfterExpire(s.t, u, now1).grants == s.t.grants && AfterExpire(s.t, u, now1).fingerprints == s.t.fingerprints
  {
    if u in s.t.grants {
      assert Caches(s, u);
    }
  }

  /** A Stripe or Apple trial yields to every other: it never shows on a user with a grant, and of several only the first
      one shows. */
  lemma ReflectedTrialsYield(s: State, u: UserId, start1: int, end1: int, start2: int, end2: int)
    requires CacheInv(s)
    ensures u in s.t.grants ==> AfterReflect(s.t, u, start1, end1) == s.t
    ensures var once := AfterReflect(s.t, u, start1, end1); AfterReflect(once, u, start2, end2) == once
  {
    if u in s.t.grants {
      assert Caches(s, u);
    }
  }

  ghost predicate StepAt(run: seq<State>, k: nat, late: bool, takeover: bool)
    requires 0 < k < |run|
  {
    Next(run[k - 1], run[k], late, takeover)
  }

  ghost predicate IsRun(run: seq<State>, late: bool, takeover: bool) {
    && |run| > 0 && run[0].t == Tables(map[], map[], map[]) && run[0].entitled == {}
    && forall k: nat :: 0 < k < |run| ==> StepAt(run, k, late, takeover)
  }

  lemma {:induction false} RunKeepsInv(run: seq<State>, late: bool, takeover: bool, i: nat)
    requires IsRun(run, late, takeover) && i < |run|
    ensures ShowsEnds(run[i].t) && (!late ==> CacheInv(run[i])) && (!takeover ==> DeviceInv(run[i].t))
    ensures OnlyEntitled(run[i])
  {
    if i == 0 {
    } else {
      RunKeepsInv(run, late, takeover, i - 1);
      assert StepAt(run, i, late, takeover);
      StepKeepsInv(run[i - 1], run[i], late, takeover);
    }
  }

  /** In every run, with every late write and touch, a user with a grant shows the grant's end, and status reports it. If no
      late write of verifySession meets an unexpired grant, status, which reads its clock after the user row, reports active
      exactly when that reading is before the end. */
  lemma StatusFollowsGrant(run: seq<State>, late: bool, takeover: bool, i: nat, u: UserId, found: Option<Grant>, now: int)
    requires IsRun(run, late, takeover) && i < |run| && u in run[i].t.grants && run[i].clock <= now
    ensures u in run[i].t.users && run[i].t.users[u].endsAt == Some(run[i].t.grants[u].expiresAt)
    ensures var report := StatusReport(run[i].t.users[u], found, now);
            && report.trialEndsAt == Some(run[i].t.grants[u].expiresAt)
            && (report.trialActive ==> now < run[i].t.grants[u].expiresAt)
            && (!late ==> (report.trialActive <==> now < run[i].t.grants[u].expiresAt))
  {
    RunKeepsInv(run, late, takeover, i);
    assert !late ==> Caches(run[i], u);
  }

  /** A request of u with trials enabled and a subscription in force. */
  ghost predicate AsksDuly(s: State, s': State, u: UserId) {
    exists deviceHash, now, grantedAt :: GrantsTo(s, s', true, u, deviceHash, now, grantedAt, true)
  }

  /** In every run each grant goes back to a step of a run that asked for it with trials enabled and a subscription in
      force. */
  lemma EveryGrantIsEarned(run: seq<State>, late: bool, takeover: bool, i: nat, u: UserId)
    returns (k: nat)
    requires IsRun(run, late, takeover) && i < |run| && u in run[i].t.grants
    ensures 0 < k <= i && u !in run[k - 1].entitled && u in run[k].entitled
    ensures AsksDuly(run[k - 1], run[k], u)
  {
    RunKeepsInv(run, late, takeover, i);
    k := FirstEntitled(run, late, takeover, i, u);
  }

  lemma {:induction false} FirstEntitled(run: seq<State>, late: bool, takeover: bool, i: nat, u: UserId) returns (k: nat)
    requires IsRun(run, late, takeover) && i < |run| && u in run[i].entitled
    ensures 0 < k <= i && u !in run[k - 1].entitled && u in run[k].entitled
    ensures AsksDuly(run[k - 1], run[k], u)
  {
    assert i > 0;
    if u in run[i - 1].entitled {
      k := FirstEntitled(run, late, takeover, i - 1, u);
    } else {
      k := i;
      assert StepAt(run, i, late, takeover);
      EntitledByGrantStep(run[i - 1], run[i], late, takeover, u);
    }
  }

  lemma EntitledByGrantStep(s: State, s': State, late: bool, takeover: bool, u: UserId)
    requires Next(s, s', late, takeover) && u !in s.entitled && u in s'.entitled
    ensures AsksDuly(s, s', u)
  {
    assert GrantStep(s, s');
    var enabled, v, deviceHash, now, grantedAt, subscribed :|
      GrantsTo(s, s', enabled, v, deviceHash, now, grantedAt, subscribed);
    assert v == u && enabled && subscribed;
  }

  /** A verifySession that nothing comes between is never a harmful late write. */
  lemma UninterruptedVerifyIsHarmless(s: State, mid: State, r: RequestId, u: UserId)
    requires ShowsEnds(s.t) && VerifyRead(s, mid, r, u)
    ensures !HasUnexpiredGrant(mid, mid.verifying[r])
  {
  }

  /** In every run a user's grant is never replaced; and if no touch takes a device over from another user's grant, a device
      hash is used for at most one grant. */
  lemma {:induction false} OneGrantPerUserAndDevice(run: seq<State>, late: bool, takeover: bool, i: nat, j: nat)
    requires IsRun(run, late, takeover) && i <= j < |run|
    ensures GrantsKept(run[i].t, run[j].t)
    ensures !takeover ==>
              forall u, v | u in run[j].t.grants && v in run[j].t.grants
                            && run[j].t.grants[u].deviceHash == run[j].t.grants[v].deviceHash ::
                IsDevice(run[j].t.grants[u].deviceHash) ==> u == v
    decreases j
  {
    RunKeepsInv(run, late, takeover, j);
    if i == j {
    } else {
      OneGrantPerUserAndDevice(run, late, takeover, i, j - 1);
      RunKeepsInv(run, late, takeover, j - 1);
      assert StepAt(run, j, late, takeover);
      StepKeepsInv(run[j - 1], run[j], late, takeover);
    }
  }

  // ---------- Where the guarantees end ----------

  /** verifySession's write, whatever came between, keeps the cache exactly when the user has no grant or the grant
      has expired. */
  lemma VerifyWriteKeepsCache(s: State, s': State, r: RequestId)
    requires CacheInv(s) && VerifyWrite(s, s', r)
    ensures var u := s.verifying[r];
            CacheInv(s') <==> !HasUnexpiredGrant(s, u)
  {
    var u := s.verifying[r];
    if !HasUnexpiredGrant(s, u) {
      forall v | v in s'.t.grants
        ensures Caches(s', v)
      {
        assert Caches(s, v);
      }
    } else {
      assert Caches(s, u);
      assert !Caches(s', u);
    }
  }

  /** A grant made between the two statements is lost on status: an expired Stripe trial, a verifySession that sees it,
      a grant, and the late write. */
  lemma VerifyRaceHidesGrant(u: UserId) returns (run: seq<State>)
    ensures |run| == 7 && IsRun(run, true, false)
    ensures VerifyRead(run[3], run[4], 0, u) && GrantStep(run[4], run[5]) && VerifyWrite(run[5], run[6], 0)
    ensures u in run[6].t.grants && run[6].clock < run[6].t.grants[u].expiresAt
    ensures !StatusReport(run[6].t.users[u], Some(run[6].t.grants[u]), run[6].clock).trialActive
  {
    var s0, s1, s2, s3 := ExpiredStripeTrial(u);
    var s4 := s3.(verifying := s3.verifying[0 := u]);
    var s5 := s4.(t := AfterGrant(s4.t, true, u, None, 20, 20, true), entitled := {u});
    var s6 := s5.(t := AfterVerifyWrite(s5.t, u), verifying := s5.verifying - {0});
    assert GrantsTo(s4, s5, true, u, None, 20, 20, true);
    run := [s0, s1, s2, s3, s4, s5, s6];
    RaceIsRun(run, 0, u);
  }

  lemma ExpiredStripeTrial(u: UserId) returns (s0: State, s1: State, s2: State, s3: State)
    ensures s0.t == Tables(map[], map[], map[]) && s0.entitled == {} && SignUp(s0, s1) && ReflectStep(s1, s2) && Tick(s2, s3)
    ensures s3.t == Tables(map[u := Fields(true, Some(0), Some(10), Some(TRIAL_TIER_NAME))], map[], map[])
    ensures s3.clock == 20 && s3.verifying == map[] && s3.entitled == {}
  {
    s0 := State(Tables(map[], map[], map[]), 0, map[], {});
    s1 := s0.(t := s0.t.(users := s0.t.users[u := Fields(false, None, None, None)]));
    assert u !in s0.t.users;
    s2 := s1.(t := AfterReflect(s1.t, u, 0, 10));
    s3 := s2.(clock := 20);
  }

  lemma RaceIsRun(run: seq<State>, r: RequestId, u: UserId)
    requires |run| == 7 && run[0].t == Tables(map[], map[], map[]) && run[0].entitled == {}
    requires SignUp(run[0], run[1]) && ReflectStep(run[1], run[2]) && Tick(run[2], run[3]) && GrantStep(run[4], run[5])
    requires VerifyRead(run[3], run[4], r, u) && VerifyWrite(run[5], run[6], r)
    ensures IsRun(run, true, false)
  {
    forall k: nat | 0 < k < |run|
      ensures StepAt(run, k, true, false)
    {
      assert k == 1 || k == 2 || k == 3 || k == 4 || k == 5 || k == 6;
    }
  }

  /** An expiry seen first by verifySession leaves the tier in place, and status reports it until the next reconcile; seen
      first by status, it clears the tier. */
  lemma VerifySessionLeavesTier(t: Tables, u: UserId, found: Option<Grant>, now: int)
    requires u in t.users && LooksOver(t.users[u], now)
    ensures var verified := AfterExpire(AfterVerifyWrite(t, u), u, now);
            var report := StatusReport(verified.users[u], found, now);
            !report.trialActive && report.tier == t.users[u].tier
    ensures var report := StatusReport(AfterExpire(t, u, now).users[u], found, now);
            !report.trialActive && report.tier == None
  {
  }

  /** touchDeviceFingerprint keeps the device guarantee exactly when it does not take the fingerprint of a device that
      another user's grant was made on. */
  lemma TouchKeepsDevices(t: Tables, u: UserId, h: DeviceHash)
    requires DeviceInv(t)
    ensures DeviceInv(AfterTouch(t, u, Some(h))) <==> !IsTakenDevice(t, u, h)
  {
    var t' := AfterTouch(t, u, Some(h));
    if v :| v in t.grants && t.grants[v].deviceHash == h && v != u && IsDevice(h) {
      assert t'.fingerprints[h] != v;
    }
  }

  /** After such a touch a second grant goes to the same device. */
  lemma TouchAllowsSecondGrant(t: Tables, u: UserId, v: UserId, h: DeviceHash, now: int, grantedAt: int)
    requires u in t.grants && t.grants[u].deviceHash == h && IsDevice(h)
    requires v in t.users && v !in t.grants
    ensures var t' := AfterGrant(AfterTouch(t, v, Some(h)), true, v, Some(h), now, grantedAt, true);
            u != v && u in t'.grants && v in t'.grants && t'.grants[u].deviceHash == t'.grants[v].deviceHash == h
  {
  }
}
