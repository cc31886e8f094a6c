/**
 customer.subscription.created / updated events (src/payment/stripe/stripe.service.ts,
 handleSubscriptionCreatedOrUpdated): the subscription row, its user mapping, the trial columns and the subscription
 emails. The event comes with the user that its Stripe customer resolves to.
 */
module StripeWebhook {
  import opened Common
  import opened Accounts
  import R = StripeReservation
  import Trials

  datatype Plan = Plan(id: Option<string>, name: Option<string>, cents: Option<int>, currency: string,
                       billing: Option<string>)

  /** What extractPlanInfo finds; a missing value is undefined in the write. */
  datatype PlanInfo = PlanInfo(id: Option<string>, name: Option<string>, cents: Option<int>, currency: Option<string>,
                               billing: Option<string>)

  datatype Detail = Detail(stripeId: Option<string>, periodStart: Option<int>, plan: Plan, cancelAtPeriodEnd: bool)

  /** Stripe's statuses; those without a counterpart in the database make the write throw. */
  datatype RawStatus = RawActive | RawTrialing | RawPastDue | RawCanceled | RawOther(name: string)

  datatype Event = Event(stripeId: string, status: RawStatus, user: Option<UserId>, periodStart: Option<int>,
                         periodEnd: Option<int>, cancelAtPeriodEnd: bool, plan: PlanInfo, trialStart: Option<int>,
                         trialEnd: Option<int>)

  /** users.stripeTrialUsedAt and stripeTrialSubscriptionId */
  datatype TrialMark = TrialMark(usedAt: Option<int>, mark: R.Mark)

  datatype Email = Started(user: UserId) | Renewed(user: UserId)

  datatype Store = Store(db: Db<Detail>, marks: map<UserId, TrialMark>, trials: Trials.Tables, emails: seq<Email>)

  function StatusOf(raw: RawStatus): Option<Status> {
    match raw
    case RawActive => Some(Active)
    case RawTrialing => Some(Trialing)
    case RawPastDue => Some(PastDue)
    case RawCanceled => Some(Cancelled)
    case RawOther(_) => None
  }

  predicate EmailEligible(s: Status) {
    s == Active || s == Trialing
  }

  function Either<T>(a: Option<T>, b: Option<T>): Option<T> {
    if a.Some? then a else b
  }

  /** The plan columns after a write over the columns `old`. */
  function MergePlan(before: Plan, info: PlanInfo): Plan {
    Plan(Either(info.id, before.id), Either(info.name, before.name), Either(info.cents, before.cents),
         if info.currency.Some? then info.currency.value else "USD", Either(info.billing, before.billing))
  }

  const NO_PLAN: Plan := Plan(None, None, None, "USD", None)

  predicate Relevant(e: Event) {
    e.user.Some? && e.periodStart.Some? && e.periodEnd.Some?
  }

  // ---------- One event ----------

  /** The two statements that mark a Stripe trial as used. */
  function Marked(m: TrialMark, id: string, now: int): TrialMark {
    var m1 := if m.mark != R.NoMark && m.mark != R.Subscription(id) then m.(mark := R.Subscription(id)) else m;
    if m1.usedAt.None? then TrialMark(Some(now), R.Subscription(id)) else m1
  }

  /** They are the webhook's two steps of the reservation protocol, for any checkouts under way. Afterwards the columns name
      the event's subscription, and a time of first use that was there stays. */
  lemma MarkedByWebhook(s: R.State, id: string, now: int) returns (mid: R.State, end: R.State)
    requires s.usedAt == None <==> s.mark == R.NoMark
    ensures R.WebhookWritesId(s, mid, id) && R.WebhookStamps(mid, end, id, now)
    ensures TrialMark(end.usedAt, end.mark) == Marked(TrialMark(s.usedAt, s.mark), id, now)
    ensures end.mark == R.Subscription(id) && end.usedAt == (if s.usedAt.Some? then s.usedAt else Some(now))
  {
    mid := if s.mark != R.NoMark && s.mark != R.Subscription(id) then s.(mark := R.Subscription(id), marker := R.Webhook)
           else s;
    end := if mid.usedAt == None then mid.(usedAt := Some(now), mark := R.Subscription(id), marker := R.Webhook) else mid;
  }

  /** What happens before the subscription row is looked at. */
  function TrialColumns(s: Store, e: Event, now: int): Store
    requires Relevant(e)
  {
    var u := e.user.value;
    if e.status != RawTrialing then s
    else
      s.(marks := if u in s.marks then s.marks[u := Marked(s.marks[u], e.stripeId, now)] else s.marks,
         trials := if e.trialEnd.Some?
                   then Trials.AfterReflect(s.trials, u, if e.trialStart.Some? then e.trialStart.value else now,
                                            e.trialEnd.value)
                   else s.trials)
  }

  predicate IsRowOf(sub: Subscription<Detail>, e: Event) {
    sub.detail.stripeId == Some(e.stripeId) && sub.detail.periodStart == e.periodStart
  }

  /** findFirst by stripeSubscriptionId and currentPeriodStart */
  ghost predicate FindsExisting(subs: map<SubId, Subscription<Detail>>, e: Event, found: Option<SubId>) {
    if found.Some? then found.value in subs && IsRowOf(subs[found.value], e)
    else forall id :: id in subs ==> !IsRowOf(subs[id], e)
  }

  /** Some other period of the subscription is on record, which makes the email a renewal. */
  ghost predicate HasPrior(subs: map<SubId, Subscription<Detail>>, e: Event, found: Option<SubId>) {
    exists id :: id in subs && subs[id].detail.stripeId == Some(e.stripeId) && Some(id) != found
  }

  ghost function Mail(s: Store, e: Event, found: Option<SubId>, previous: Option<Status>): seq<Email>
    requires Relevant(e) && StatusOf(e.status).Some?
  {
    if EmailEligible(StatusOf(e.status).value) && (previous.None? || !EmailEligible(previous.value))
    then s.emails + [if HasPrior(s.db.subs, e, found) then Renewed(e.user.value) else Started(e.user.value)]
    else s.emails
  }

  function UpdatedSub(sub: Subscription<Detail>, e: Event): Subscription<Detail>
    requires Relevant(e) && StatusOf(e.status).Some?
  {
    sub.(status := StatusOf(e.status).value, periodEnd := e.periodEnd,
         detail := sub.detail.(plan := MergePlan(sub.detail.plan, e.plan), cancelAtPeriodEnd := e.cancelAtPeriodEnd))
  }

  function CreatedSub(e: Event, now: int): Subscription<Detail>
    requires Relevant(e) && StatusOf(e.status).Some?
  {
    Subscription(e.user.value, now, StatusOf(e.status).value, e.periodEnd,
                 Detail(Some(e.stripeId), e.periodStart, MergePlan(NO_PLAN, e.plan), e.cancelAtPeriodEnd))
  }

  /** What the handler reads besides the tables: the row it found, a fresh id, clocks, the feature flag. */
  datatype Context = Context(found: Option<SubId>, freshId: SubId, now: int, grantedAt: int, trialsEnabled: bool)

  function WithSub(db: Db<Detail>, id: SubId, sub: Subscription<Detail>, u: UserId): Db<Detail> {
    db.(subs := db.subs[id := sub], rows := Mapped(db.rows, db.links, id, u))
  }

  /** The whole handler. */
  ghost function Handled(s: Store, e: Event, c: Context): Store
    requires c.found.Some? ==> c.found.value in s.db.subs
  {
    if !Relevant(e) then s
    else if StatusOf(e.status).None? then s
    else
      var s1 := TrialColumns(s, e, c.now);
      var u := e.user.value;
      match c.found
      case Some(id) =>
        s1.(db := WithSub(s.db, id, UpdatedSub(s.db.subs[id], e), u),
            emails := Mail(s, e, c.found, Some(s.db.subs[id].status)))
      case None =>
        var db := WithSub(s.db, c.freshId, CreatedSub(e, c.now), u);
        s1.(db := db,
            trials := Trials.AfterGrant(s1.trials, c.trialsEnabled, u, None, c.now, c.grantedAt, OwnsAny(db, u, c.now)),
            emails := Mail(s, e, c.found, None))
  }

  ghost predicate HandleStep(s: Store, s': Store, e: Event, c: Context) {
    FindsExisting(s.db.subs, e, c.found) && c.freshId !in s.db.subs && s' == Handled(s, e, c)
  }

  // ---------- Replay ----------

  ghost predicate UniquePeriods(subs: map<SubId, Subscription<Detail>>) {
    forall a, b | a in subs && b in subs && subs[a].detail.stripeId.Some? ::
      (&& subs[a].detail.stripeId == subs[b].detail.stripeId
       && subs[a].detail.periodStart == subs[b].detail.periodStart) ==> a == b
  }

  /** Handling an event a second time, whenever that is, leaves every table as it is and sends no subscription email. */
  lemma ReplayChangesNothing(s: Store, s': Store, s'': Store, e: Event, c: Context, c': Context)
    requires UniquePeriods(s.db.subs) && HandleStep(s, s', e, c) && HandleStep(s', s'', e, c')
    ensures s'' == s'
  {
    if Relevant(e) && StatusOf(e.status).Some? {
      var id := if c.found.Some? then c.found.value else c.freshId;
      HandledRow(s, s', e, c, id);
      HandleKeepsPeriods(s, s', e, c);
      assert IsRowOf(s'.db.subs[id], e);
      assert c'.found == Some(id);
      TrialColumnsSettle(s, s', e, c, c'.now);
      MapSettles(s.db.rows, s.db.links, id, e.user.value);
      MergeSettles(s.db.subs, e, c, id);
      SettledEvent(s', e, c', id);
    }
  }

  /** An event whose every write is already in the tables. */
  lemma SettledEvent(s: Store, e: Event, c: Context, id: SubId)
    requires Relevant(e) && StatusOf(e.status).Some? && c.found == Some(id) && id in s.db.subs
    requires UpdatedSub(s.db.subs[id], e) == s.db.subs[id] && TrialColumns(s, e, c.now) == s
    requires Mapped(s.db.rows, s.db.links, id, e.user.value) == s.db.rows
    ensures Handled(s, e, c) == s
  {
    assert s.db.subs[id := s.db.subs[id]] == s.db.subs;
    assert WithSub(s.db, id, s.db.subs[id], e.user.value) == s.db;
  }

  lemma HandledRow(s: Store, s': Store, e: Event, c: Context, id: SubId)
    requires HandleStep(s, s', e, c) && Relevant(e) && StatusOf(e.status).Some?
    requires id == if c.found.Some? then c.found.value else c.freshId
    ensures s'.db == WithSub(s.db, id, if c.found.Some? then UpdatedSub(s.db.subs[id], e) else CreatedSub(e, c.now),
                             e.user.value)
    ensures IsRowOf(s'.db.subs[id], e) && s'.db.subs[id].status == StatusOf(e.status).value
  {
  }

  lemma HandleKeepsPeriods(s: Store, s': Store, e: Event, c: Context)
    requires UniquePeriods(s.db.subs) && HandleStep(s, s', e, c)
    ensures UniquePeriods(s'.db.subs)
  {
  }

  lemma MapSettles(rows: map<Key, Role>, links: set<Link>, id: SubId, u: UserId)
    ensures Mapped(Mapped(rows, links, id, u), links, id, u) == Mapped(rows, links, id, u)
  {
  }

  lemma MergeSettles(subs: map<SubId, Subscription<Detail>>, e: Event, c: Context, id: SubId)
    requires Relevant(e) && StatusOf(e.status).Some? && (c.found.Some? ==> id in subs)
    ensures var sub := if c.found.Some? then UpdatedSub(subs[id], e) else CreatedSub(e, c.now); UpdatedSub(sub, e) == sub
  {
  }

  /** After an event the statements before the subscription row match nothing. */
  lemma TrialColumnsSettle(s: Store, s': Store, e: Event, c: Context, later: int)
    requires HandleStep(s, s', e, c) && Relevant(e) && StatusOf(e.status).Some?
    ensures TrialColumns(s', e, later) == s'
  {
    if e.status == RawTrialing {
      var u := e.user.value;
      var s1 := TrialColumns(s, e, c.now);
      assert s'.marks == s1.marks;
      if e.trialEnd.Some? && u in s1.trials.users {
        var f := s1.trials.users[u];
        assert f.active || f.endsAt.Some? || f.startsAt.Some?;
        assert s'.trials.users[u] == f || s'.trials.users[u].endsAt.Some?;
      }
    }
  }

  // ---------- Every run ----------

  /** The event's customer resolves to a user on record, the owner of the row if there is one. */
  ghost predicate ResolvesToOwner(s: Store, e: Event, c: Context) {
    e.user.Some? ==>
      && e.user.value in s.db.users
      && (c.found.Some? && c.found.value in s.db.subs ==> s.db.subs[c.found.value].owner == e.user.value)
  }

  ghost predicate Next(s: Store, s': Store) {
    || (exists e, c :: HandleStep(s, s', e, c) && ResolvesToOwner(s, e, c))
    || (s' == s.(db := s'.db) && AccountStep(s.db, s'.db))
  }

  /** Links, unlinks, sign-ins and the writes for Apple subscriptions. */
  ghost predicate AccountStep(db: Db<Detail>, db': Db<Detail>) {
    Accounts.Next(db, db') && forall id :: id in db'.subs ==>
      (if id in db.subs then db'.subs[id].detail.stripeId == db.subs[id].detail.stripeId
                             && db'.subs[id].detail.periodStart == db.subs[id].detail.periodStart
       else db'.subs[id].detail.stripeId.None?)
  }

  /** An event is a payment step of the account model, or two: the row, then its mapping. */
  lemma HandleKeepsAccounts(s: Store, s': Store, e: Event, c: Context)
    requires Inv(s.db) && HandleStep(s, s', e, c) && ResolvesToOwner(s, e, c)
    ensures Inv(s'.db)
    ensures Relevant(e) && StatusOf(e.status).Some? ==>
              var id := if c.found.Some? then c.found.value else c.freshId;
              var o := e.user.value;
              forall v :: Key(id, v) in s'.db.rows <==> v == o || AreLinked(s.db.links, o, v)
  {
    if Relevant(e) && StatusOf(e.status).Some? {
      var u := e.user.value;
      var id := if c.found.Some? then c.found.value else c.freshId;
      HandledRow(s, s', e, c, id);
      var sub := if c.found.Some? then UpdatedSub(s.db.subs[id], e) else CreatedSub(e, c.now);
      var mid := if c.found.Some? then s.db.(subs := s.db.subs[id := sub])
                 else s.db.(subs := s.db.subs[id := sub], rows := s.db.rows[Key(id, u) := Owner]);
      if c.found.Some? {
        assert UpdatesSub(s.db, mid, id, sub);
      } else {
        assert CreatesSub(s.db, mid, id, sub);
        MapAfterOwnerRow(s.db.rows, s.db.links, id, u);
      }
      PaymentKeepsInv(s.db, mid);
      assert Maps(mid, s'.db, id);
      MapsKeepsInv(mid, s'.db, id);
    }
  }

  lemma MapAfterOwnerRow(rows: map<Key, Role>, links: set<Link>, id: SubId, u: UserId)
    requires Key(id, u) !in rows
    ensures Mapped(rows[Key(id, u) := Owner], links, id, u) == Mapped(rows, links, id, u)
  {
  }

  // ---------- What an event means ----------

  /** After an event for an active or trialing subscription the owner and every linked user have access up to and including
      the end of its period. */
  lemma EventGivesAccess(s: Store, s': Store, e: Event, c: Context, v: UserId, t: int)
    requires Inv(s.db) && HandleStep(s, s', e, c) && ResolvesToOwner(s, e, c)
    requires e.status == RawActive || e.status == RawTrialing
    requires e.user.Some? && e.periodStart.Some? && e.periodEnd.Some? && t <= e.periodEnd.value
    requires v == e.user.value || AreLinked(s.db.links, e.user.value, v)
    ensures Entitled(s'.db, v, t)
  {
    HandleKeepsAccounts(s, s', e, c);
    var id := if c.found.Some? then c.found.value else c.freshId;
    HandledRow(s, s', e, c, id);
    EntitledExactly(s'.db, v, t);
    assert id in s'.db.subs && Key(id, v) in s'.db.rows;
  }

  /** After a past-due or canceled one its row gives access to nobody at any time. */
  lemma EventEndsAccess(s: Store, s': Store, e: Event, c: Context, v: UserId, t: int)
    requires HandleStep(s, s', e, c) && (e.status == RawPastDue || e.status == RawCanceled)
    requires e.user.Some? && e.periodStart.Some? && e.periodEnd.Some?
    ensures var id := if c.found.Some? then c.found.value else c.freshId;
            && id in s'.db.subs && IsRowOf(s'.db.subs[id], e)
            && s'.db.subs[id].status == (if e.status == RawPastDue then PastDue else Cancelled)
            && !Owns(s'.db, v, t, id) && !MappedTo(s'.db, v, t, id)
  {
    HandledRow(s, s', e, c, if c.found.Some? then c.found.value else c.freshId);
  }

  /** An event whose customer has no user, without a period, or with a status that has no counterpart changes nothing. */
  lemma OtherEventsChangeNothing(s: Store, s': Store, e: Event, c: Context)
    requires HandleStep(s, s', e, c)
    requires e.user.None? || e.periodStart.None? || e.periodEnd.None? || e.status.RawOther?
    ensures s' == s
  {
  }

  /** The columns of the event's row afterwards. Of the plan, what the event names is taken over and what it leaves out
      stays, except that the currency falls back to USD. */
  lemma EventColumns(s: Store, s': Store, e: Event, c: Context)
    requires HandleStep(s, s', e, c) && !e.status.RawOther?
    requires e.user.Some? && e.periodStart.Some? && e.periodEnd.Some?
    ensures var id := if c.found.Some? then c.found.value else c.freshId;
            && id in s'.db.subs
            && var row := s'.db.subs[id];
               && row.periodEnd == e.periodEnd && row.detail.periodStart == e.periodStart
               && row.detail.stripeId == Some(e.stripeId) && row.detail.cancelAtPeriodEnd == e.cancelAtPeriodEnd
               && (c.found.None? ==> row.owner == e.user.value && row.createdAt == c.now)
               && row.detail.plan.currency == (if e.plan.currency.Some? then e.plan.currency.value else "USD")
               && (e.plan.id.Some? ==> row.detail.plan.id == e.plan.id)
               && (e.plan.name.Some? ==> row.detail.plan.name == e.plan.name)
               && (e.plan.cents.Some? ==> row.detail.plan.cents == e.plan.cents)
               && (e.plan.billing.Some? ==> row.detail.plan.billing == e.plan.billing)
               && var before := if c.found.Some? then s.db.subs[id].detail.plan else Plan(None, None, None, "USD", None);
                  && (e.plan.id.None? ==> row.detail.plan.id == before.id)
                  && (e.plan.name.None? ==> row.detail.plan.name == before.name)
                  && (e.plan.cents.None? ==> row.detail.plan.cents == before.cents)
                  && (e.plan.billing.None? ==> row.detail.plan.billing == before.billing)
  {
    HandledRow(s, s', e, c, if c.found.Some? then c.found.value else c.freshId);
  }

  /** One email for each period that becomes active or trialing: "started" for the first period of a subscription on
      record, "renewed" for every other; and none for an event that finds it so already. */
  lemma SubscriptionEmails(s: Store, s': Store, e: Event, c: Context)
    requires HandleStep(s, s', e, c) && e.user.Some? && e.periodStart.Some? && e.periodEnd.Some?
    requires e.status == RawActive || e.status == RawTrialing
    ensures (exists id :: c.found == Some(id) && s.db.subs[id].status in {Active, Trialing}) ==> s'.emails == s.emails
    ensures c.found.None? || s.db.subs[c.found.value].status !in {Active, Trialing} ==>
              if exists id :: id in s.db.subs && s.db.subs[id].detail.stripeId == Some(e.stripeId) && c.found != Some(id)
              then s'.emails == s.emails + [Renewed(e.user.value)]
              else s'.emails == s.emails + [Started(e.user.value)]
  {
  }

  /** No other event sends one. */
  lemma OtherEventsSendNothing(s: Store, s': Store, e: Event, c: Context)
    requires HandleStep(s, s', e, c) && e.status != RawActive && e.status != RawTrialing
    ensures s'.emails == s.emails
  {
  }

  /** A trialing event shows its trial on a user who has none: from its start, or else the time it is handled, to its
      end. */
  lemma TrialIsShown(s: Store, s': Store, e: Event, c: Context)
    requires HandleStep(s, s', e, c) && e.status == RawTrialing && e.trialEnd.Some?
    requires e.user.Some? && e.periodStart.Some? && e.periodEnd.Some? && e.user.value in s.trials.users
    requires s.trials.users[e.user.value] == Trials.Fields(false, None, None, None)
    requires e.user.value !in s'.trials.grants
    ensures s'.trials.users[e.user.value] ==
            Trials.Fields(true, Some(if e.trialStart.Some? then e.trialStart.value else c.now), e.trialEnd,
                          Some("free_trial"))
  {
    var u, s1 := e.user.value, TrialColumns(s, e, c.now);
    Trials.ReflectedTrialShows(s.trials, u, if e.trialStart.Some? then e.trialStart.value else c.now, e.trialEnd.value);
    assert s1.trials.users[u].active;
    if c.found.None? {
      UngrantedIsUnchanged(s1.trials, s'.trials, u, c,
                           OwnsAny(WithSub(s.db, c.freshId, CreatedSub(e, c.now), u), u, c.now));
    }
  }

  lemma UngrantedIsUnchanged(t: Trials.Tables, t': Trials.Tables, u: UserId, c: Context, subscribed: bool)
    requires t' == Trials.AfterGrant(t, c.trialsEnabled, u, None, c.now, c.grantedAt, subscribed) && u !in t'.grants
    ensures t' == t
  {
  }

  /** An event that adds a trial grant leaves its user with a subscription in force, for which it was granted. */
  lemma GrantNeedsSubscription(s: Store, s': Store, e: Event, c: Context, u: UserId)
    requires HandleStep(s, s', e, c) && u !in s.trials.grants && u in s'.trials.grants
    ensures c.trialsEnabled && e.user == Some(u) && c.found.None?
    ensures exists id :: id in s'.db.subs && s'.db.subs[id].owner == u
                         && (s'.db.subs[id].status == Active || s'.db.subs[id].status == Trialing)
                         && (s'.db.subs[id].periodEnd.Some? ==> c.now <= s'.db.subs[id].periodEnd.value)
  {
    var id :| Owns(s'.db, u, c.now, id);
  }

  lemma StepKeepsAll(s: Store, s': Store)
    requires Inv(s.db) && UniquePeriods(s.db.subs) && Next(s, s')
    ensures Inv(s'.db) && UniquePeriods(s'.db.subs)
  {
    if e, c :| HandleStep(s, s', e, c) && ResolvesToOwner(s, e, c) {
      HandleKeepsAccounts(s, s', e, c);
      HandleKeepsPeriods(s, s', e, c);
    } else {
      Accounts.StepKeepsInv(s.db, s'.db);
    }
  }

  /** Every serial run of events with links, unlinks, sign-ins and Apple writes keeps one row per Stripe subscription and
      period, and the account invariant. */
  lemma {:induction false} StripeRuns(run: seq<Store>, i: nat)
    requires |run| > 0 && run[0].db == Db(map[], {}, map[], map[]) && i < |run|
    requires forall k {:trigger run[k]} :: 0 < k < |run| ==> Next(run[k - 1], run[k])
    ensures Inv(run[i].db) && UniquePeriods(run[i].db.subs)
  {
    if i == 0 {
    } else {
      StripeRuns(run, i - 1);
      StepKeepsAll(run[i - 1], run[i]);
    }
  }

  // ---------- The handler in place ----------

  class StripeService {
    var users: map<UserId, User>
    var links: set<Link>
    var subs: map<SubId, Subscription<Detail>>
    var rows: map<Key, Role>
    var marks: map<UserId, TrialMark>
    var trials: Trials.Tables
    var emails: seq<Email>

    constructor (s: Store)
      ensures Snapshot() == s
    {
      users, links, subs, rows := s.db.users, s.db.links, s.db.subs, s.db.rows;
      marks, trials, emails := s.marks, s.trials, s.emails;
    }

    function Snapshot(): Store
      reads this
    {
      Store(Db(users, links, subs, rows), marks, trials, emails)
    }

    method FindExisting(e: Event) returns (found: Option<SubId>)
      ensures FindsExisting(subs, e, found)
    {
      var ids := set id | id in subs && IsRowOf(subs[id], e);
      if ids == {} {
        assert forall id :: id in subs && IsRowOf(subs[id], e) ==> id in ids;
        return None;
      }
      var id :| id in ids;
      return Some(id);
    }

    method FindPrior(e: Event, found: Option<SubId>) returns (prior: bool)
      ensures prior <==> HasPrior(subs, e, found)
    {
      var ids := set id | id in subs && subs[id].detail.stripeId == Some(e.stripeId) && Some(id) != found;
      prior := ids != {};
      assert forall id :: id in subs && subs[id].detail.stripeId == Some(e.stripeId) && Some(id) != found <==> id in ids;
    }

    method HasOwnSubscription(u: UserId, now: int) returns (subscribed: bool)
      ensures subscribed <==> OwnsAny(Snapshot().db, u, now)
    {
      var ids := set id | id in subs && subs[id].owner == u && InForce(subs[id], now);
      subscribed := ids != {};
      assert forall id :: Owns(Snapshot().db, u, now, id) <==> id in ids;
    }

    /** The statements for a trialing subscription, before its row is looked at. */
    method MarkTrial(e: Event, now: int)
      requires Relevant(e)
      modifies this`marks, this`trials
      ensures Snapshot() == TrialColumns(old(Snapshot()), e, now)
    {
      if e.status != RawTrialing {
        return;
      }
      var u := e.user.value;
      if u in marks && marks[u].mark != R.NoMark && marks[u].mark != R.Subscription(e.stripeId) {
        marks := marks[u := marks[u].(mark := R.Subscription(e.stripeId))];
      }
      if u in marks && marks[u].usedAt.None? {
        marks := marks[u := TrialMark(Some(now), R.Subscription(e.stripeId))];
      }
      if e.trialEnd.Some? {
        trials := Trials.AfterReflect(trials, u, if e.trialStart.Some? then e.trialStart.value else now,
                                      e.trialEnd.value);
      }
    }

    method HandleSubscriptionCreatedOrUpdated(e: Event, freshId: SubId, now: int, grantedAt: int, trialsEnabled: bool)
      returns (ghost found: Option<SubId>)
      requires freshId !in subs
      modifies this
      ensures HandleStep(old(Snapshot()), Snapshot(), e, Context(found, freshId, now, grantedAt, trialsEnabled))
    {
      var existing := FindExisting(e);
      found := existing;
      if !Relevant(e) || StatusOf(e.status).None? {
        return;
      }
      ghost var before := Snapshot();
      var u := e.user.value;
      MarkTrial(e, now);
      var prior := FindPrior(e, existing);
      var message := if prior then Renewed(u) else Started(u);
      if existing.Some? {
        var previous := subs[existing.value].status;
        subs := subs[existing.value := UpdatedSub(subs[existing.value], e)];
        rows := Mapped(rows, links, existing.value, u);
        if EmailEligible(StatusOf(e.status).value) && !EmailEligible(previous) {
          emails := emails + [message];
        }
      } else {
        subs := subs[freshId := CreatedSub(e, now)];
        rows := Mapped(rows, links, freshId, u);
        if EmailEligible(StatusOf(e.status).value) {
          emails := emails + [message];
        }
        var subscribed := HasOwnSubscription(u, now);
        trials := Trials.AfterGrant(trials, trialsEnabled, u, None, now, grantedAt, subscribed);
      }
    }
  }
}
