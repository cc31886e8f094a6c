/**
 connection_sessions rows and their three writers: upsertSession and the stale sweep (src/vpn/vpn-session.service.ts)
 and recordSession (src/connection/connection.service.ts). Times are in milliseconds; the model starts after ISO dates
 have been parsed.
 */
module Sessions {
  import opened Common

  type SessionId = string
  type RequestId = nat

  datatype EventType = SessionStart | Heartbeat | SessionEnd
  datatype Termination = UserTermination | ConnectionLost | HealthCheckFailure | RecoveryExhausted
  datatype Platform = IosExtension | OtherPlatform(name: string)

  datatype Row = Row(userId: Option<UserId>, start: int, end: Option<int>, duration: int, bytes: int,
                     platform: Platform, termination: Termination, reason: Option<string>, event: EventType,
                     heartbeat: Option<int>)

  function Max(a: int, b: int): int {
    if a >= b then a else b
  }

  /** max(0, floor((end - start) / 1000)), and 0 while the session is open */
  function Duration(start: int, end: Option<int>): int {
    if end.None? then 0 else Max(0, (end.value - start) / 1000)
  }

  // ---------- upsertSession ----------

  datatype Upsert = Upsert(startAt: int, lastSeenAt: int, endAt: Option<int>, reason: Option<string>) {
    predicate HasReason() {
      reason.Some? && reason.value != ""
    }

    predicate Accepted() {
      lastSeenAt >= startAt && (endAt.Some? ==> endAt.value >= startAt)
    }
  }

  datatype Outcome = Persisted(row: Row) | BadRequest | Conflict

  function UpsertOutcome(existing: Option<Row>, userId: UserId, m: Upsert): Outcome {
    if !m.Accepted() then BadRequest
    else if existing.None? then Persisted(CreatedRow(userId, m))
    else if existing.value.userId.Some? && existing.value.userId.value != userId then Conflict
    else Persisted(UpdatedRow(existing.value, m))
  }

  function CreatedRow(userId: UserId, m: Upsert): Row {
    Row(Some(userId), m.startAt, m.endAt, Duration(m.startAt, m.endAt), 0, IosExtension,
        if m.endAt.Some? then UserTermination else ConnectionLost,
        if m.endAt.Some? && m.HasReason() then m.reason else None,
        if m.endAt.Some? then SessionEnd else SessionStart,
        Some(m.lastSeenAt))
  }

  /** The owner, the start and the byte count stay; the end is written once. */
  function UpdatedRow(row: Row, m: Upsert): Row {
    var end := if row.end.Some? then row.end else m.endAt;
    Row(row.userId, row.start, end,
        if end.Some? then Max(row.duration, Duration(row.start, end)) else row.duration,
        row.bytes, row.platform,
        if row.end.None? && m.endAt.Some? then UserTermination else row.termination,
        if end.Some? && m.HasReason() then m.reason else row.reason,
        if m.endAt.Some? then SessionEnd
        else if row.end.Some? && m.HasReason() then row.event
        else if row.event == SessionEnd then SessionEnd else Heartbeat,
        Some(Max(if row.heartbeat.Some? then row.heartbeat.value else 0, m.lastSeenAt)))
  }

  // ---------- The stale sweep ----------

  /** PostgreSQL's cast of seconds to int rounds to the nearest integer; which way a tie goes does not matter here. */
  ghost predicate RoundsToNearest(seconds: int -> int) {
    forall ms :: -500 <= 1000 * seconds(ms) - ms <= 500
  }

  predicate IsStale(row: Row, cutoff: int) {
    row.end.None? && row.platform == IosExtension && row.heartbeat.Some? && row.heartbeat.value < cutoff
  }

  function SweptRow(row: Row, cutoff: int, seconds: int -> int): Row {
    if !IsStale(row, cutoff) then row
    else row.(end := row.heartbeat,
              duration := Max(row.duration, seconds(row.heartbeat.value - row.start)),
              event := SessionEnd,
              termination := ConnectionLost,
              reason := if row.reason.Some? then row.reason else Some("server_inferred_last_seen_timeout"))
  }

  // ---------- recordSession ----------

  datatype RecordedEvent = Start | Beat | End

  datatype Report = Report(userId: Option<UserId>, event: RecordedEvent, start: int, end: Option<int>, duration: int,
                           bytes: int, platform: Platform, reason: Option<string>)

  function TerminationFor(reason: Option<string>): Termination {
    if reason == Some("RECOVERY_EXHAUSTED") then RecoveryExhausted
    else if reason == Some("HEALTH_CHECK_FAILURE") then HealthCheckFailure
    else if reason == Some("NETWORK_RECOVERY") then ConnectionLost
    else UserTermination
  }

  function EventTypeOf(e: RecordedEvent): EventType {
    match e
    case Start => SessionStart
    case Beat => Heartbeat
    case End => SessionEnd
  }

  /** The first statement, an upsert; `now` is its clock reading. An undefined reason leaves the column alone. */
  function RecordedRow(existing: Option<Row>, report: Report, now: int): Row {
    var end := if report.end.Some? then report.end else if report.event == End then Some(now) else None;
    match existing
    case None =>
      Row(report.userId, report.start, end, report.duration, report.bytes, report.platform,
          if report.event == End then TerminationFor(report.reason) else UserTermination,
          report.reason, EventTypeOf(report.event), Some(now))
    case Some(row) =>
      row.(heartbeat := Some(now),
           event := EventTypeOf(report.event),
           reason := if report.reason.Some? then report.reason else row.reason,
           end := if report.event == End then end else row.end,
           termination := if report.event == End then TerminationFor(report.reason) else row.termination)
  }

  /** The second statement: GREATEST on the counters, COALESCE on the owner. */
  function CountedRow(row: Row, report: Report): Row {
    row.(duration := Max(row.duration, report.duration),
         bytes := Max(row.bytes, report.bytes),
         userId := if row.userId.Some? then row.userId else report.userId)
  }

  /** Both statements of recordSession in a row. */
  function Recorded(existing: Option<Row>, report: Report, now: int): Row {
    CountedRow(RecordedRow(existing, report, now), report)
  }

  // ---------- The writers in place ----------

  class SessionStore {
    var rows: map<SessionId, Row>

    constructor ()
      ensures rows == map[]
    {
      rows := map[];
    }

    function Find(id: SessionId): Option<Row>
      reads this
    {
      if id in rows then Some(rows[id]) else None
    }

    /** The transaction of upsertSession, step by step. */
    method UpsertSession(userId: UserId, id: SessionId, m: Upsert) returns (outcome: Outcome)
      modifies this
      ensures outcome == UpsertOutcome(old(Find(id)), userId, m)
      ensures rows == if outcome.Persisted? then old(rows)[id := outcome.row] else old(rows)
      ensures outcome == BadRequest <==>
                m.lastSeenAt < m.startAt || (m.endAt.Some? && m.endAt.value < m.startAt)
      ensures id in old(rows) && old(rows)[id].userId.Some? && old(rows)[id].userId.value != userId ==>
                !outcome.Persisted? && rows == old(rows)
      ensures outcome == Conflict ==>
                id in old(rows) && old(rows)[id].userId.Some? && old(rows)[id].userId.value != userId
    {
      if m.lastSeenAt < m.startAt || (m.endAt.Some? && m.endAt.value < m.startAt) {
        return BadRequest;
      }
      var existing := Find(id);
      if existing.Some? && existing.value.userId.Some? && existing.value.userId.value != userId {
        return Conflict;
      }
      var mergedLastSeenAt := m.lastSeenAt;
      var sessionEnd: Option<int> := None;
      var disconnectReason: Option<string> := None;
      var terminationReason := ConnectionLost;
      var eventType := SessionStart;
      if existing.Some? {
        var seen := if existing.value.heartbeat.Some? then existing.value.heartbeat.value else 0;
        mergedLastSeenAt := if seen >= m.lastSeenAt then seen else m.lastSeenAt;
        sessionEnd, disconnectReason := existing.value.end, existing.value.reason;
        terminationReason, eventType := existing.value.termination, existing.value.event;
      }
      if m.endAt.Some? {
        if sessionEnd.None? {
          sessionEnd := m.endAt;
          terminationReason := UserTermination;
        }
        if m.reason.Some? && m.reason.value != "" {
          disconnectReason := m.reason;
        }
        eventType := SessionEnd;
      } else if m.reason.Some? && m.reason.value != "" && sessionEnd.Some? {
        disconnectReason := m.reason;
      } else if existing.None? {
        eventType := SessionStart;
      } else {
        eventType := if eventType == SessionEnd then SessionEnd else Heartbeat;
      }
      var row: Row;
      if existing.None? {
        row := Row(Some(userId), m.startAt, sessionEnd,
                   if sessionEnd.Some? then Max(0, (sessionEnd.value - m.startAt) / 1000) else 0,
                   0, IosExtension, if sessionEnd.Some? then UserTermination else ConnectionLost,
                   disconnectReason, eventType, Some(mergedLastSeenAt));
      } else {
        row := existing.value.(heartbeat := Some(mergedLastSeenAt), end := sessionEnd, reason := disconnectReason,
                               event := eventType, termination := terminationReason);
      }
      if sessionEnd.Some? {
        var derivedDuration := Max(0, (sessionEnd.value - row.start) / 1000);
        row := row.(duration := Max(row.duration, derivedDuration));
      }
      rows := rows[id := row];
      return Persisted(row);
    }

    /** One UPDATE over all rows. */
    method CloseStaleOpenSessions(cutoff: int, seconds: int -> int) returns (closed: nat)
      modifies this
      ensures rows == map id | id in old(rows) :: SweptRow(old(rows)[id], cutoff, seconds)
      ensures closed == |set id | id in old(rows) && IsStale(old(rows)[id], cutoff)|
      ensures forall id :: id in rows ==> !IsStale(rows[id], cutoff)
      ensures forall id :: id in old(rows) ==>
                var row := old(rows)[id];
                if row.end.None? && row.platform == IosExtension && row.heartbeat.Some? && row.heartbeat.value < cutoff
                then rows[id].end == row.heartbeat && rows[id].event == SessionEnd
                     && rows[id].termination == ConnectionLost && rows[id].reason.Some?
                else rows[id] == row
    {
      closed := |set id | id in rows && IsStale(rows[id], cutoff)|;
      rows := map id | id in rows :: SweptRow(rows[id], cutoff, seconds);
    }

    /** recordSession with nothing between its two statements. */
    method RecordSession(id: SessionId, report: Report, now: int)
      modifies this
      ensures rows == old(rows)[id := Recorded(old(Find(id)), report, now)]
    {
      RecordUpsert(id, report, now);
      RecordCounters(id, report);
    }

    method RecordUpsert(id: SessionId, report: Report, now: int)
      modifies this
      ensures rows == old(rows)[id := RecordedRow(old(Find(id)), report, now)]
    {
      rows := rows[id := RecordedRow(Find(id), report, now)];
    }

    method RecordCounters(id: SessionId, report: Report)
      modifies this
      ensures rows == if id in old(rows) then old(rows)[id := CountedRow(old(rows)[id], report)] else old(rows)
    {
      if id in rows {
        rows := rows[id := CountedRow(rows[id], report)];
      }
    }
  }

  // ---------- Upserts alone: the closed form ----------

  ghost predicate AllAccepted(ms: seq<Upsert>) {
    forall i :: 0 <= i < |ms| ==> ms[i].Accepted()
  }

  /** The row after a list of accepted upserts of one user, the first of which creates it. */
  function AfterUpserts(userId: UserId, ms: seq<Upsert>): Row
    requires |ms| > 0
  {
    if |ms| == 1 then CreatedRow(userId, ms[0])
    else UpdatedRow(AfterUpserts(userId, ms[..|ms| - 1]), ms[|ms| - 1])
  }

  /** AfterUpserts is what the service does: it persists every one of them. */
  lemma {:induction false} UpsertsArePersisted(userId: UserId, ms: seq<Upsert>)
    requires |ms| > 0 && AllAccepted(ms)
    ensures AfterUpserts(userId, ms).userId == Some(userId)
    ensures var before := if |ms| == 1 then None else Some(AfterUpserts(userId, ms[..|ms| - 1]));
            UpsertOutcome(before, userId, ms[|ms| - 1]) == Persisted(AfterUpserts(userId, ms))
  {
    if |ms| == 1 {
    } else {
      UpsertsArePersisted(userId, ms[..|ms| - 1]);
    }
  }

  ghost predicate ClosedBy(ms: seq<Upsert>, i: int)
    requires i < |ms|
  {
    exists k :: 0 <= k <= i && ms[k].endAt.Some?
  }

  /** Message i carries a reason that is kept: a non-empty one, with an end or after one. */
  ghost predicate Explains(ms: seq<Upsert>, i: int)
    requires 0 <= i < |ms|
  {
    ms[i].HasReason() && ClosedBy(ms, i)
  }

  ghost predicate IsLatest(ms: seq<Upsert>, t: int) {
    (exists i :: 0 <= i < |ms| && ms[i].lastSeenAt == t) && forall i :: 0 <= i < |ms| ==> ms[i].lastSeenAt <= t
  }

  ghost predicate IsFirstEnd(ms: seq<Upsert>, end: Option<int>) {
    if end.None? then forall i :: 0 <= i < |ms| ==> ms[i].endAt.None?
    else exists i :: 0 <= i < |ms| && ms[i].endAt == end && forall j :: 0 <= j < i ==> ms[j].endAt.None?
  }

  ghost predicate IsLastReason(ms: seq<Upsert>, reason: Option<string>) {
    if reason.None? then forall i :: 0 <= i < |ms| ==> !Explains(ms, i)
    else exists i :: 0 <= i < |ms| && Explains(ms, i) && ms[i].reason == reason
                     && forall j :: i < j < |ms| ==> !Explains(ms, j)
  }

  /** A duration is the number of whole seconds in the session, and nothing for an open one or one that ends before it
      starts. */
  lemma DurationIsSeconds(start: int, end: Option<int>)
    ensures var d := Duration(start, end);
            && (end.None? || end.value < start ==> d == 0)
            && (end.Some? && start <= end.value ==> 1000 * d <= end.value - start < 1000 * d + 1000)
  {
  }

  /** The row in terms of the whole list of messages: start of the first, latest lastSeenAt, first endAt to arrive, the
      duration between start and end, last reason that counts. */
  ghost predicate IsClosedForm(userId: UserId, ms: seq<Upsert>, row: Row)
    requires |ms| > 0
  {
    && row.userId == Some(userId) && row.bytes == 0 && row.platform == IosExtension
    && row.start == ms[0].startAt
    && row.heartbeat.Some? && IsLatest(ms, row.heartbeat.value)
    && IsFirstEnd(ms, row.end)
    && row.duration == Duration(row.start, row.end)
    && IsLastReason(ms, row.reason)
    && row.termination == (if row.end.Some? then UserTermination else ConnectionLost)
    && row.event == (if row.end.Some? then SessionEnd else if |ms| == 1 then SessionStart else Heartbeat)
  }

  lemma {:induction false} UpsertsHaveClosedForm(userId: UserId, ms: seq<Upsert>)
    requires |ms| > 0 && AllAccepted(ms)
    ensures IsClosedForm(userId, ms, AfterUpserts(userId, ms))
  {
    var n := |ms| - 1;
    if n == 0 {
      assert ms[0].endAt.Some? ==> ClosedBy(ms, 0);
    } else {
      var init, m := ms[..n], ms[n];
      UpsertsHaveClosedForm(userId, init);
      var row, row' := AfterUpserts(userId, init), AfterUpserts(userId, ms);
      LatestOfMore(init, m, row.heartbeat.value);
      FirstEndOfMore(init, m, row.end);
      LastReasonOfMore(init, m, row.end, row.reason);
      assert ms == init + [m];
    }
  }

  lemma LatestOfMore(init: seq<Upsert>, m: Upsert, t: int)
    requires IsLatest(init, t)
    ensures IsLatest(init + [m], Max(t, m.lastSeenAt))
  {
    var ms := init + [m];
    var i :| 0 <= i < |init| && init[i].lastSeenAt == t;
    assert ms[i].lastSeenAt == t && ms[|init|].lastSeenAt == m.lastSeenAt;
  }

  lemma FirstEndOfMore(init: seq<Upsert>, m: Upsert, end: Option<int>)
    requires IsFirstEnd(init, end)
    ensures IsFirstEnd(init + [m], if end.Some? then end else m.endAt)
  {
    var ms := init + [m];
    assert ms[|init|] == m;
    if end.Some? {
      var i :| 0 <= i < |init| && init[i].endAt == end && forall j :: 0 <= j < i ==> init[j].endAt.None?;
      assert ms[i] == init[i];
    }
  }

  lemma LastReasonOfMore(init: seq<Upsert>, m: Upsert, end: Option<int>, reason: Option<string>)
    requires IsFirstEnd(init, end) && IsLastReason(init, reason)
    ensures IsLastReason(init + [m],
                         if (end.Some? || m.endAt.Some?) && m.HasReason() then m.reason else reason)
  {
    var ms := init + [m];
    var n := |init|;
    assert ms[n] == m;
    forall i | 0 <= i < n
      ensures Explains(ms, i) <==> Explains(init, i)
    {
      if ClosedBy(ms, i) {
        var k :| 0 <= k <= i && ms[k].endAt.Some?;
        assert init[k].endAt.Some?;
      }
      if ClosedBy(init, i) {
        var k :| 0 <= k <= i && init[k].endAt.Some?;
        assert ms[k].endAt.Some?;
      }
    }
    assert ClosedBy(ms, n) <==> end.Some? || m.endAt.Some? by {
      if end.Some? {
        var k :| 0 <= k < n && init[k].endAt == end;
        assert ms[k].endAt.Some?;
      }
    }
  }

  /** Reasons: a missing or empty one is ignored; one for an open session is ignored unless the message ends it; and one that
      comes after the end, without an end of its own, changes no other column but the heartbeat and the duration. */
  lemma ReasonsThatCount(row: Row, m: Upsert)
    ensures m.reason == None || m.reason == Some("") ==> UpdatedRow(row, m).reason == row.reason
    ensures m.reason.Some? && m.reason.value != "" && (row.end.Some? || m.endAt.Some?) ==>
              UpdatedRow(row, m).reason == m.reason
    ensures row.end.None? && m.endAt.None? ==> UpdatedRow(row, m).reason == row.reason
    ensures m.reason.Some? && m.reason.value != "" && row.end.Some? && m.endAt.None? ==>
              var row' := UpdatedRow(row, m);
              row' == row.(reason := m.reason, heartbeat := row'.heartbeat, duration := row'.duration)
  {
  }

  /** A message of another user never changes an owned row, in any state. */
  lemma ForeignUpsertIsRefused(row: Row, userId: UserId, m: Upsert)
    requires row.userId.Some? && row.userId.value != userId
    ensures !UpsertOutcome(Some(row), userId, m).Persisted?
  {
  }

  /** Two messages without an end may arrive in either order, exactly unless the session is closed and they carry
      different reasons. */
  lemma HeartbeatsCommute(row: Row, a: Upsert, b: Upsert)
    requires a.endAt.None? && b.endAt.None?
    ensures UpdatedRow(UpdatedRow(row, a), b) == UpdatedRow(UpdatedRow(row, b), a) <==>
              row.end.None? || !a.HasReason() || !b.HasReason() || a.reason == b.reason
  {
  }

  /** Replaying a message of a session that upserts have closed changes nothing but the reason, and that exactly when the
      message carries another one. */
  lemma ReplayOfClosedSession(userId: UserId, ms: seq<Upsert>, i: nat)
    requires i < |ms| && AllAccepted(ms) && AfterUpserts(userId, ms).end.Some?
    ensures var row := AfterUpserts(userId, ms);
            && UpsertOutcome(Some(row), userId, ms[i]) ==
                 Persisted(row.(reason := if ms[i].HasReason() then ms[i].reason else row.reason))
  {
    UpsertsHaveClosedForm(userId, ms);
  }

  // ---------- Upserts and sweeps: every run on an extension row ----------

  /** A row with, for the proofs only, whether a client closed it and the messages it has accepted. */
  datatype Tracked = Tracked(row: Row, closedByClient: bool, seen: seq<Upsert>)

  ghost predicate TrackedUpsert(t: Tracked, t': Tracked, userId: UserId, m: Upsert) {
    match UpsertOutcome(Some(t.row), userId, m)
    case Persisted(row) => t' == Tracked(row, t.closedByClient || (t.row.end.None? && row.end.Some?), t.seen + [m])
    case _ => t' == t
  }

  ghost predicate TrackedNext(t: Tracked, t': Tracked) {
    || (exists userId, m :: TrackedUpsert(t, t', userId, m))
    || (exists cutoff, seconds :: RoundsToNearest(seconds) && t' == t.(row := SweptRow(t.row, cutoff, seconds)))
  }

  ghost predicate TrackedRun(run: seq<Tracked>) {
    && |run| > 0
    && (exists userId, m: Upsert :: m.Accepted() && run[0] == Tracked(CreatedRow(userId, m), m.endAt.Some?, [m]))
    && forall i: nat :: 0 < i < |run| ==> TrackedStepAt(run, i)
  }

  ghost predicate TrackedStepAt(run: seq<Tracked>, i: nat)
    requires 0 < i < |run|
  {
    TrackedNext(run[i - 1], run[i])
  }

  ghost predicate ExtensionInv(t: Tracked) {
    var row := t.row;
    && row.userId.Some? && row.platform == IosExtension
    && row.heartbeat.Some? && row.heartbeat.value >= row.start
    && (forall i :: 0 <= i < |t.seen| ==> t.seen[i].Accepted() && t.seen[i].lastSeenAt <= row.heartbeat.value)
    && (row.event == SessionEnd <==> row.end.Some?)
    && (row.termination == UserTermination <==> t.closedByClient)
    && (t.closedByClient ==> row.end.Some?)
    && (row.end.None? ==> row.duration == 0)
    && (row.end.Some? ==> var d := Duration(row.start, row.end); row.duration == d || row.duration == d + 1)
  }

  /** What no step ever undoes. */
  ghost predicate Later(row: Row, row': Row) {
    && row'.start == row.start
    && (row.end.Some? ==> row'.end == row.end)
    && (row.heartbeat.Some? ==> row'.heartbeat.Some? && row'.heartbeat.value >= row.heartbeat.value)
  }

  lemma TrackedStep(t: Tracked, t': Tracked)
    requires ExtensionInv(t) && TrackedNext(t, t')
    ensures ExtensionInv(t') && Later(t.row, t'.row)
  {
    if userId, m :| TrackedUpsert(t, t', userId, m) {
    } else {
      var cutoff, seconds :| RoundsToNearest(seconds) && t' == t.(row := SweptRow(t.row, cutoff, seconds));
      SweepRoundsUpAtMostOne(t.row, seconds);
    }
  }

  lemma SweepRoundsUpAtMostOne(row: Row, seconds: int -> int)
    requires RoundsToNearest(seconds) && row.heartbeat.Some? && row.heartbeat.value >= row.start
    ensures var s := seconds(row.heartbeat.value - row.start);
            var d := Duration(row.start, row.heartbeat);
            0 <= s && (s == d || s == d + 1)
  {
    var ms := row.heartbeat.value - row.start;
    assert -500 <= 1000 * seconds(ms) - ms <= 500;
  }

  /** Over every run of upserts and sweeps: the end is written once, the heartbeat never goes back and is never before
      the start; SESSION_END stands for a set end, USER_TERMINATION for a close by the client; an open row has duration
      0 and a closed one the floor of its seconds or one more. */
  lemma {:induction false} ExtensionRuns(run: seq<Tracked>, i: nat, j: nat)
    requires TrackedRun(run) && i <= j < |run|
    ensures ExtensionInv(run[j]) && Later(run[i].row, run[j].row)
    decreases j
  {
    if j == 0 {
    } else {
      ExtensionRuns(run, if i < j then i else j - 1, j - 1);
      assert TrackedStepAt(run, j);
      TrackedStep(run[j - 1], run[j]);
    }
  }

  /** In every run with sweeps an upsert that changes the row is by its owner. */
  lemma OnlyTheOwnerUpserts(run: seq<Tracked>, i: nat, userId: UserId, m: Upsert)
    requires TrackedRun(run) && 0 < i < |run| && TrackedUpsert(run[i - 1], run[i], userId, m) && run[i] != run[i - 1]
    ensures run[i - 1].row.userId == Some(userId)
  {
    ExtensionRuns(run, i - 1, i - 1);
    OwnerUpserts(run[i - 1], run[i], userId, m);
  }

  lemma OwnerUpserts(t: Tracked, t': Tracked, userId: UserId, m: Upsert)
    requires ExtensionInv(t) && TrackedUpsert(t, t', userId, m) && t' != t
    ensures t.row.userId == Some(userId)
  {
    if t.row.userId != Some(userId) {
      ForeignUpsertIsRefused(t.row, userId, m);
    }
  }

  /** The same in every run with sweeps: once the session is closed, by a client or by a sweep, replaying any message that
      was accepted before changes nothing but the reason. */
  lemma ReplayInAnyRun(run: seq<Tracked>, i: nat, k: nat, userId: UserId)
    requires TrackedRun(run) && i < |run| && k < |run[i].seen|
    requires run[i].row.end.Some? && run[i].row.userId == Some(userId)
    ensures var row, m := run[i].row, run[i].seen[k];
            UpsertOutcome(Some(row), userId, m) ==
              Persisted(row.(reason := if m.HasReason() then m.reason else row.reason))
  {
    ExtensionRuns(run, i, i);
  }

  /** And the reason does change: a session that a closes, and b gives another reason, takes a's reason back. */
  lemma ReplayChangesReason(userId: UserId, a: Upsert, b: Upsert)
    requires a.Accepted() && b.Accepted() && a.endAt.Some? && a.HasReason() && b.HasReason() && a.reason != b.reason
    ensures var row := AfterUpserts(userId, [a, b]);
            && row.end.Some? && row.reason == b.reason
            && UpsertOutcome(Some(row), userId, a) == Persisted(row.(reason := a.reason))
  {
    var ms := [a, b];
    assert ms[..1] == [a];
    ReplayOfClosedSession(userId, ms, 0);
  }

  // ---------- All writers, with recordSession's statements interleaved ----------

  /** One row id: the row once it exists, and the recordSession requests between their two statements. */
  datatype Shared = Shared(row: Option<Row>, pending: map<RequestId, Report>, started: map<RequestId, Report>)

  ghost predicate RecordFirst(s: Shared, s': Shared, r: RequestId, report: Report, now: int) {
    && r !in s.started
    && s' == Shared(Some(RecordedRow(s.row, report, now)), s.pending[r := report], s.started[r := report])
  }

  ghost predicate RecordSecond(s: Shared, s': Shared, r: RequestId) {
    && r in s.pending && s.row.Some?
    && s' == s.(row := Some(CountedRow(s.row.value, s.pending[r])), pending := s.pending - {r})
  }

  ghost predicate RecordNext(s: Shared, s': Shared) {
    || (exists r, report, now :: RecordFirst(s, s', r, report, now))
    || (exists r :: RecordSecond(s, s', r))
  }

  ghost predicate SharedUpsert(s: Shared, s': Shared, userId: UserId, m: Upsert) {
    s' == match UpsertOutcome(s.row, userId, m)
          case Persisted(row) => s.(row := Some(row))
          case _ => s
  }

  ghost predicate SharedNext(s: Shared, s': Shared) {
    || RecordNext(s, s')
    || (exists userId, m :: SharedUpsert(s, s', userId, m))
    || (exists cutoff, seconds: int -> int :: s.row.Some? && s' == s.(row := Some(SweptRow(s.row.value, cutoff, seconds))))
  }

  /** What holds of a row from one state to any later one. */
  ghost predicate Grows(row: Row, row': Row) {
    && row'.duration >= row.duration && row'.bytes >= row.bytes
    && (row.end.Some? ==> row'.end.Some?)
    && (row.userId.Some? ==> row'.userId == row.userId)
  }

  lemma SharedStep(s: Shared, s': Shared)
    requires SharedNext(s, s') && s.row.Some?
    ensures s'.row.Some? && Grows(s.row.value, s'.row.value)
  {
  }

  /** Over every interleaving of the two statements of any recordSession requests with upserts and sweeps: the counters
      never decrease, a closed session never reopens, an owner is never replaced. */
  lemma {:induction false} InterleavedRuns(run: seq<Shared>, i: nat, j: nat)
    requires forall k {:trigger run[k]} :: 0 < k < |run| ==> SharedNext(run[k - 1], run[k])
    requires i <= j < |run| && run[i].row.Some?
    ensures run[j].row.Some? && Grows(run[i].row.value, run[j].row.value)
    decreases j
  {
    if i == j {
    } else {
      InterleavedRuns(run, i, j - 1);
      SharedStep(run[j - 1], run[j]);
    }
  }

  /** Over the same runs, an upsert that changes a row with an owner is by that owner; one that changes a row without an owner
      leaves it without. */
  lemma OnlyTheOwnerUpsertsShared(s: Shared, s': Shared, userId: UserId, m: Upsert)
    requires SharedUpsert(s, s', userId, m) && s' != s && s.row.Some?
    ensures s.row.value.userId.Some? ==> s.row.value.userId == Some(userId)
    ensures s'.row.Some? && s'.row.value.userId == s.row.value.userId
  {
    if s.row.value.userId.Some? && s.row.value.userId.value != userId {
      ForeignUpsertIsRefused(s.row.value, userId, m);
    }
  }

  /** The row that a first report leaves, column by column. */
  lemma FirstReport(report: Report, now: int)
    ensures var row := Recorded(None, report, now);
            && row.userId == report.userId && row.start == report.start && row.platform == report.platform
            && row.duration == report.duration && row.bytes == report.bytes && row.reason == report.reason
            && row.heartbeat == Some(now)
            && row.end == (if report.end.Some? then report.end else if report.event == End then Some(now) else None)
            && row.event == (match report.event case Start => SessionStart case Beat => Heartbeat case End => SessionEnd)
            && (report.event != End ==> row.termination == UserTermination)
            && (report.event == End ==> row.termination == TerminationFor(report.reason))
  {
  }

  /** How the reason of an END is classified: three causes are told apart, and everything else is the user's doing. */
  lemma TerminationsToldApart(reason: Option<string>)
    ensures TerminationFor(reason) == ConnectionLost <==> reason == Some("NETWORK_RECOVERY")
    ensures TerminationFor(reason) == HealthCheckFailure <==> reason == Some("HEALTH_CHECK_FAILURE")
    ensures TerminationFor(reason) == RecoveryExhausted <==> reason == Some("RECOVERY_EXHAUSTED")
  {
  }

  /** What a later report changes, column by column: an owner is filled in, counters grow, and the columns of the end are
      written by an END only. */
  lemma LaterReport(row: Row, report: Report, now: int)
    ensures var row' := Recorded(Some(row), report, now);
            && row'.userId == (if row.userId.Some? then row.userId else report.userId)
            && row'.start == row.start && row'.platform == row.platform && row'.heartbeat == Some(now)
            && row.duration <= row'.duration && report.duration <= row'.duration
            && (row'.duration == row.duration || row'.duration == report.duration)
            && row.bytes <= row'.bytes && report.bytes <= row'.bytes
            && (row'.bytes == row.bytes || row'.bytes == report.bytes)
            && row'.reason == (if report.reason.Some? then report.reason else row.reason)
            && row'.event == (match report.event case Start => SessionStart case Beat => Heartbeat case End => SessionEnd)
            && (report.event != End ==> row'.end == row.end && row'.termination == row.termination)
            && (report.event == End ==>
                  && row'.end == (if report.end.Some? then report.end else Some(now))
                  && row'.termination == TerminationFor(report.reason))
  {
  }

  /** The counters are among the reported values, and at least those of every finished request. */
  ghost predicate CountersInv(s: Shared) {
    && (s.row.None? ==> s.started == map[])
    && (forall r :: r in s.pending ==> r in s.started && s.pending[r] == s.started[r])
    && (s.row.Some? ==>
          && (exists r :: r in s.started && s.started[r].duration == s.row.value.duration)
          && (exists r :: r in s.started && s.started[r].bytes == s.row.value.bytes)
          && (forall r :: r in s.started && r !in s.pending ==>
                s.started[r].duration <= s.row.value.duration && s.started[r].bytes <= s.row.value.bytes))
  }

  lemma CountersStep(s: Shared, s': Shared)
    requires CountersInv(s) && RecordNext(s, s')
    ensures CountersInv(s')
  {
    if r, report, now :| RecordFirst(s, s', r, report, now) {
      assert s'.started[r] == report;
      assert forall q :: q in s.started ==> q in s'.started && s'.started[q] == s.started[q];
    } else {
      var r :| RecordSecond(s, s', r);
      assert s.started[r] == s.pending[r];
    }
  }

  lemma {:induction false} CountersRun(run: seq<Shared>, i: nat)
    requires i < |run| && run[0] == Shared(None, map[], map[])
    requires forall k {:trigger run[k]} :: 0 < k < |run| ==> RecordNext(run[k - 1], run[k])
    ensures CountersInv(run[i])
  {
    if i == 0 {
    } else {
      CountersRun(run, i - 1);
      CountersStep(run[i - 1], run[i]);
    }
  }

  /** For recordSession alone, once every request has run both statements the counters are the maxima of all reported
      values, in whatever order and interleaving they arrived. */
  lemma CountersEndAsMaxima(run: seq<Shared>)
    requires |run| > 1 && run[0] == Shared(None, map[], map[])
    requires forall k {:trigger run[k]} :: 0 < k < |run| ==> RecordNext(run[k - 1], run[k])
    requires run[|run| - 1].pending == map[] && run[|run| - 1].row.Some?
    ensures var s := run[|run| - 1];
            && (exists r :: r in s.started && s.started[r].duration == s.row.value.duration)
            && (forall r :: r in s.started ==> s.started[r].duration <= s.row.value.duration)
            && (exists r :: r in s.started && s.started[r].bytes == s.row.value.bytes)
            && (forall r :: r in s.started ==> s.started[r].bytes <= s.row.value.bytes)
  {
    CountersRun(run, |run| - 1);
  }

  /** A report that arrives twice changes nothing but the heartbeat and, if it is an END that carries no end, the end. */
  lemma DuplicateReport(existing: Option<Row>, report: Report, now: int, later: int)
    ensures var row := Recorded(existing, report, now);
            Recorded(Some(row), report, later) ==
              row.(heartbeat := Some(later),
                   end := if report.event == End && report.end.None? then Some(later) else row.end)
  {
  }

  // ---------- Where recordSession breaks what upserts and sweeps keep ----------

  ghost predicate EndMeansSessionEnd(row: Row) {
    row.event == SessionEnd <==> row.end.Some?
  }

  /** recordSession keeps SESSION_END in step with the end exactly when it reports END or the row stays open: a late
      heartbeat on a closed session breaks it, and so does creating a row with an end by another event. */
  lemma RecordKeepsSessionEnd(existing: Option<Row>, report: Report, now: int)
    requires existing.Some? ==> EndMeansSessionEnd(existing.value)
    ensures EndMeansSessionEnd(RecordedRow(existing, report, now)) <==>
              || report.event == End
              || (existing.Some? && existing.value.end.None?)
              || (existing.None? && report.end.None?)
  {
  }

  /** It happens: a late heartbeat for a session that its first message has closed. */
  lemma LateBeatBreaksSessionEnd(userId: UserId, m: Upsert, report: Report, now: int)
    requires m.Accepted() && m.endAt.Some? && report.event == Beat
    ensures var row := CreatedRow(userId, m);
            && UpsertOutcome(None, userId, m) == Persisted(row)
            && EndMeansSessionEnd(row) && !EndMeansSessionEnd(RecordedRow(Some(row), report, now))
  {
  }

  /** recordSession keeps the end of a closed session exactly when it does not report END, or reports END with that very
      end, or reports END without an end at that very time. */
  lemma RecordKeepsEnd(row: Row, report: Report, now: int)
    requires row.end.Some?
    ensures RecordedRow(Some(row), report, now).end == row.end <==>
              report.event != End || report.end == row.end || (report.end.None? && row.end.value == now)
  {
  }

  /** It happens: a late END without an end for a session that its first message has closed. */
  lemma LateEndMovesEnd(userId: UserId, m: Upsert, report: Report, now: int)
    requires m.Accepted() && m.endAt.Some? && m.endAt.value < now && report.event == End && report.end.None?
    ensures var row := CreatedRow(userId, m);
            && UpsertOutcome(None, userId, m) == Persisted(row)
            && row.end == m.endAt && RecordedRow(Some(row), report, now).end == Some(now)
  {
  }
}
