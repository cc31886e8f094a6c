/** The one-time Stripe trial (src/payment/stripe/stripe.service.ts): reservations by checkouts, marks by webhooks. */
module StripeReservation {
  import opened Common
  import L = Lease

  type RequestId = L.RequestId

  /** stripeTrialSubscriptionId: null, the reservation key of a checkout ("pending:..."), or a subscription id. */
  datatype Mark = NoMark | Pending(key: nat) | Subscription(id: string)

  datatype Pc = Eligible | Reserved(key: nat) | Failed(key: nat) | MayRetry | Done

  /** The two columns of one user's row; `marker` records, for the proofs only, who wrote the mark last. `log` holds the
      attempts to create a checkout session with trial days. */
  datatype Marker = Nobody | Checkout(r: RequestId) | Webhook
  datatype State = State(usedAt: Option<int>, mark: Mark, pcs: map<RequestId, Pc>, log: seq<L.Attempt>, marker: Marker)

  /** The eligibility snapshot: usedAt is null and the user has no Stripe subscription row. */
  predicate Snapshot(s: State, s': State, r: RequestId, hasStripeSubscription: bool) {
    && r !in s.pcs
    && s' == s.(pcs := s.pcs[r := if s.usedAt == None && !hasStripeSubscription then Eligible else Done])
  }

  /** updateMany where both columns are null. A checkout that gets no reservation goes on without trial days. */
  predicate Reserve(s: State, s': State, r: RequestId, key: nat, now: int) {
    && r in s.pcs && s.pcs[r].Eligible?
    && s' == if s.usedAt == None && s.mark == NoMark
             then s.(usedAt := Some(now), mark := Pending(key), pcs := s.pcs[r := Reserved(key)], marker := Checkout(r))
             else s.(pcs := s.pcs[r := Done])
  }

  predicate CreateSession(s: State, s': State, r: RequestId, created: bool) {
    && r in s.pcs && s.pcs[r].Reserved?
    && s' == s.(pcs := s.pcs[r := if created then Done else Failed(s.pcs[r].key)],
                log := s.log + [L.Attempt(r, created)])
  }

  /** updateMany where the mark is this checkout's key. After "no such customer" for a stored customer id the checkout
      goes on to retry; after any other error it is over. */
  predicate Release(s: State, s': State, r: RequestId, noSuchCustomer: bool) {
    && r in s.pcs && s.pcs[r].Failed?
    && var next := s.pcs[r := if noSuchCustomer then MayRetry else Done];
       s' == if s.mark == Pending(s.pcs[r].key)
             then s.(usedAt := None, mark := NoMark, pcs := next, marker := Nobody)
             else s.(pcs := next)
  }

  /** The update of a release fails; its error is only logged, and the checkout goes on as after a release. */
  predicate ReleaseFails(s: State, s': State, r: RequestId, noSuchCustomer: bool) {
    r in s.pcs && s.pcs[r].Failed? && s' == s.(pcs := s.pcs[r := if noSuchCustomer then MayRetry else Done])
  }

  /** The retry: it still asks for trial days, although the reservation has been released. */
  predicate Retry(s: State, s': State, r: RequestId, created: bool) {
    && r in s.pcs && s.pcs[r].MayRetry?
    && s' == s.(pcs := s.pcs[r := Done], log := s.log + [L.Attempt(r, created)])
  }

  predicate Crash(s: State, s': State, r: RequestId) {
    r in s.pcs && s' == s.(pcs := s.pcs[r := Done])
  }

  /** A trialing webhook, first statement: where the mark is another, non-null, value. */
  predicate WebhookWritesId(s: State, s': State, id: string) {
    s' == if s.mark != NoMark && s.mark != Subscription(id)
          then s.(mark := Subscription(id), marker := Webhook) else s
  }

  /** A trialing webhook, second statement: where usedAt is null. */
  predicate WebhookStamps(s: State, s': State, id: string, now: int) {
    s' == if s.usedAt == None then s.(usedAt := Some(now), mark := Subscription(id), marker := Webhook) else s
  }

  /** Every step but the retry. */
  ghost predicate Next(s: State, s': State) {
    || (exists r, sub :: Snapshot(s, s', r, sub))
    || (exists r, key, now :: Reserve(s, s', r, key, now))
    || (exists r, created :: CreateSession(s, s', r, created))
    || (exists r, missing :: Release(s, s', r, missing) || ReleaseFails(s, s', r, missing))
    || (exists r :: Crash(s, s', r))
    || (exists id :: WebhookWritesId(s, s', id))
    || (exists id, now :: WebhookStamps(s, s', id, now))
  }

  /** No request under way, and the columns are null together. */
  ghost predicate Init(s: State) {
    s.pcs == map[] && s.log == [] && s.marker == Nobody && (s.usedAt == None <==> s.mark == NoMark)
  }

  ghost predicate Holds(pc: Pc) {
    pc.Reserved? || pc.Failed?
  }

  ghost function Abstract(s: State): L.Lease {
    L.Lease(s.mark != NoMark, (set r | r in s.pcs && Holds(s.pcs[r])), s.log)
  }

  ghost predicate Inv(s: State) {
    && (s.usedAt == None <==> s.mark == NoMark)
    && L.Inv(Abstract(s))
    && (forall r :: r in s.pcs && Holds(s.pcs[r]) ==>
          || (s.marker == Checkout(r) && s.mark == Pending(s.pcs[r].key))
          || (s.marker == Webhook && s.mark.Subscription?))
  }

  lemma StepRefinesLease(s: State, s': State)
    requires Inv(s) && Next(s, s')
    ensures Inv(s') && L.Next(Abstract(s), Abstract(s'))
  {
    if r, sub :| Snapshot(s, s', r, sub) {
      assert Abstract(s').holders == Abstract(s).holders;
    } else if r, key, now :| Reserve(s, s', r, key, now) {
      ReserveClaims(s, s', r, key, now);
    } else if r, created :| CreateSession(s, s', r, created) {
      CreateSessionActs(s, s', r, created);
    } else if r, missing :| Release(s, s', r, missing) {
      ReleaseReleases(s, s', r, missing);
    } else if r, missing :| ReleaseFails(s, s', r, missing) {
      ReleaseFailureDrops(s, s', r, missing);
    } else if r :| Crash(s, s', r) {
      CrashDrops(s, s', r);
    } else if id :| WebhookWritesId(s, s', id) {
      assert Abstract(s') == Abstract(s);
    } else if id, now :| WebhookStamps(s, s', id, now) {
      assert Abstract(s') == Abstract(s).(held := true);
    }
    L.NextKeepsInv(Abstract(s), Abstract(s'));
  }

  lemma ReserveClaims(s: State, s': State, r: RequestId, key: nat, now: int)
    requires Inv(s) && Reserve(s, s', r, key, now)
    ensures Inv(s') && L.Next(Abstract(s), Abstract(s'))
  {
    var l, l' := Abstract(s), Abstract(s');
    if s.mark == NoMark {
      assert l'.holders == l.holders + {r};
      assert l.holders == {};
      assert L.Claim(l, l', r);
    } else {
      assert l'.holders == l.holders;
    }
    L.NextKeepsInv(l, l');
    assert forall q :: q in s.pcs && q != r && Holds(s.pcs[q]) ==> q in l.holders;
  }

  lemma CreateSessionActs(s: State, s': State, r: RequestId, created: bool)
    requires Inv(s) && CreateSession(s, s', r, created)
    ensures Inv(s') && L.Next(Abstract(s), Abstract(s'))
  {
    var l, l' := Abstract(s), Abstract(s');
    assert l'.holders == if created then l.holders - {r} else l.holders;
    assert L.Act(l, l', r);
    L.NextKeepsInv(l, l');
  }

  lemma ReleaseReleases(s: State, s': State, r: RequestId, missing: bool)
    requires Inv(s) && Release(s, s', r, missing)
    ensures Inv(s') && L.Next(Abstract(s), Abstract(s'))
  {
    var l, l' := Abstract(s), Abstract(s');
    assert r in l.holders;
    assert l'.holders == l.holders - {r};
    assert L.Release(l, l', r) || L.Drop(l, l', r);
    L.NextKeepsInv(l, l');
    assert forall q :: q in s'.pcs && Holds(s'.pcs[q]) ==> q in l'.holders && q in l.holders;
  }

  lemma ReleaseFailureDrops(s: State, s': State, r: RequestId, missing: bool)
    requires Inv(s) && ReleaseFails(s, s', r, missing)
    ensures Inv(s') && L.Next(Abstract(s), Abstract(s'))
  {
    var l, l' := Abstract(s), Abstract(s');
    assert r in l.holders && l'.holders == l.holders - {r};
    assert L.Drop(l, l', r);
    L.NextKeepsInv(l, l');
  }

  lemma CrashDrops(s: State, s': State, r: RequestId)
    requires Inv(s) && Crash(s, s', r)
    ensures Inv(s') && L.Next(Abstract(s), Abstract(s'))
  {
    var l, l' := Abstract(s), Abstract(s');
    assert l'.holders == l.holders - {r};
    assert r in l.holders ==> L.Drop(l, l', r);
    L.NextKeepsInv(l, l');
  }

  ghost predicate IsRun(run: seq<State>) {
    |run| > 0 && Init(run[0]) && forall i {:trigger run[i]} :: 0 < i < |run| ==> Next(run[i - 1], run[i])
  }

  lemma {:induction false} RunKeepsInv(run: seq<State>, i: nat)
    requires IsRun(run) && i < |run|
    ensures Inv(run[i])
  {
    if i == 0 {
    } else {
      RunKeepsInv(run, i - 1);
      StepRefinesLease(run[i - 1], run[i]);
    }
  }

  /** Over every interleaving of checkouts and trialing webhooks without the retry: at most one session with trial days
      is created, none is attempted after it, and the two columns are null together. */
  lemma AtMostOneTrialSession(run: seq<State>, i: nat)
    requires IsRun(run) && i < |run|
    ensures L.AtMostOneSuccess(run[i].log)
    ensures run[i].usedAt == None <==> run[i].mark == NoMark
  {
    RunKeepsInv(run, i);
  }

  /** A release that changes the columns undoes its own checkout's reservation, never another's or a webhook's mark. */
  lemma ReleaseUndoesOwnReservation(run: seq<State>, i: nat, r: RequestId, missing: bool)
    requires IsRun(run) && 0 < i < |run| && Release(run[i - 1], run[i], r, missing)
    ensures run[i].mark != run[i - 1].mark || run[i].usedAt != run[i - 1].usedAt ==>
              run[i - 1].marker == Checkout(r) && run[i - 1].mark == Pending(run[i - 1].pcs[r].key)
  {
    RunKeepsInv(run, i - 1);
  }

  // ---------- The retry ----------

  /** Every step of the source. */
  ghost predicate NextWithRetry(s: State, s': State) {
    Next(s, s') || exists r, created :: Retry(s, s', r, created)
  }

  ghost predicate HasSession(log: seq<L.Attempt>) {
    exists i :: 0 <= i < |log| && log[i].ok
  }

  ghost predicate HasTwoSessions(log: seq<L.Attempt>) {
    exists i, j :: 0 <= i < j < |log| && log[i].ok && log[j].ok
  }

  /** A checkout that may still open a session on its reservation, or still give back the one in the columns. */
  predicate MayFree(mark: Mark, pc: Pc) {
    pc.Reserved? || (pc.Failed? && mark == Pending(pc.key))
  }

  /** Some checkout without a retry can still get trial days: the columns are free, or one holds the reservation. */
  ghost predicate Open(s: State) {
    s.mark == NoMark || exists r :: r in s.pcs && MayFree(s.mark, s.pcs[r])
  }

  /** When a retry that succeeds is one session too many, now or later. */
  ghost predicate Exposed(s: State) {
    Open(s) || HasSession(s.log)
  }

  /** At most one session so far, and none can follow it. Weaker than Inv: it survives retries that fail, and those that
      succeed while nothing is exposed. */
  ghost predicate Guarded(s: State) {
    Held(s) && (HasSession(s.log) ==> !Open(s)) && !HasTwoSessions(s.log)
  }

  /** At most one checkout holds a reservation; the columns are null together. */
  ghost predicate Held(s: State) {
    && (s.usedAt == None <==> s.mark == NoMark)
    && (forall q, r :: q in s.pcs && r in s.pcs && Holds(s.pcs[q]) && Holds(s.pcs[r]) ==> q == r)
    && (forall r :: r in s.pcs && Holds(s.pcs[r]) ==>
          || (s.marker == Checkout(r) && s.mark == Pending(s.pcs[r].key))
          || (s.marker == Webhook && s.mark.Subscription?))
  }

  /** So every state without retries is guarded. */
  lemma InvIsGuarded(s: State)
    requires Inv(s)
    ensures Guarded(s)
  {
    forall r | r in s.pcs && Holds(s.pcs[r])
      ensures r in Abstract(s).holders
    {
    }
    if i :| 0 <= i < |s.log| && s.log[i].ok {
      assert i == |s.log| - 1;
    }
  }

  lemma LogAppend(log: seq<L.Attempt>, a: L.Attempt)
    ensures HasSession(log + [a]) <==> HasSession(log) || a.ok
    ensures HasTwoSessions(log + [a]) <==> HasTwoSessions(log) || (HasSession(log) && a.ok)
  {
    var more := log + [a];
    assert more[|log|] == a && forall i :: 0 <= i < |log| ==> more[i] == log[i];
  }

  lemma StepKeepsGuarded(s: State, s': State)
    requires Guarded(s) && Next(s, s')
    ensures Guarded(s')
  {
    if r, created :| CreateSession(s, s', r, created) {
      LogAppend(s.log, L.Attempt(r, created));
      assert MayFree(s.mark, s.pcs[r]);
    } else {
      assert s'.log == s.log;
      if !Open(s) {
        StaysShut(s, s');
      }
      OneHolder(s, s');
    }
  }

  /** Once no checkout can get trial days without a retry, that stays so, and no session is opened. */
  lemma StaysShut(s: State, s': State)
    requires !Open(s) && Next(s, s')
    ensures !Open(s') && s'.log == s.log
  {
    forall r | r in s'.pcs
      ensures !MayFree(s'.mark, s'.pcs[r])
    {
      assert r in s.pcs ==> !MayFree(s.mark, s.pcs[r]);
    }
  }

  lemma OneHolder(s: State, s': State)
    requires Held(s) && Next(s, s') && s'.log == s.log
    ensures Held(s')
  {
    if r, key, now :| Reserve(s, s', r, key, now) {
      ReserveKeepsHeld(s, s', r, key, now);
    } else if r, missing :| Release(s, s', r, missing) {
      ReleaseKeepsHeld(s, s', r, missing);
    } else if id :| WebhookWritesId(s, s', id) {
    } else if id, now :| WebhookStamps(s, s', id, now) {
    } else {
      SameColumnsKeepHeld(s, s');
    }
  }

  lemma ReserveKeepsHeld(s: State, s': State, r: RequestId, key: nat, now: int)
    requires Held(s) && Reserve(s, s', r, key, now)
    ensures Held(s')
  {
  }

  lemma ReleaseKeepsHeld(s: State, s': State, r: RequestId, missing: bool)
    requires Held(s) && Release(s, s', r, missing)
    ensures Held(s')
  {
  }

  lemma SameColumnsKeepHeld(s: State, s': State)
    requires Held(s) && s' == s.(pcs := s'.pcs, log := s'.log)
    requires forall r :: r in s'.pcs && Holds(s'.pcs[r]) ==>
               r in s.pcs && Holds(s.pcs[r]) && s'.pcs[r].key == s.pcs[r].key
    ensures Held(s')
  {
  }

  /** A retry that succeeds keeps the guarantee exactly when nothing is exposed. */
  lemma RetryKeepsGuarded(s: State, s': State, r: RequestId, created: bool)
    requires Guarded(s) && Retry(s, s', r, created)
    ensures Guarded(s') <==> !(created && Exposed(s))
  {
    LogAppend(s.log, L.Attempt(r, created));
    assert Open(s') <==> Open(s) by {
      forall q | q in s.pcs
        ensures MayFree(s.mark, s.pcs[q]) <==> MayFree(s'.mark, s'.pcs[q])
      {
      }
    }
  }

  /** Over every interleaving with retries: at most one session with trial days is created if no retry succeeds in an
      exposed state. */
  lemma {:induction false} RetriesAllowOneTrialSession(run: seq<State>, i: nat)
    requires i < |run| && Init(run[0])
    requires forall k {:trigger run[k]} :: 0 < k < |run| ==> NextWithRetry(run[k - 1], run[k])
    requires forall k, r {:trigger Retry(run[k - 1], run[k], r, true)} :: 0 < k < |run| ==>
               !(Retry(run[k - 1], run[k], r, true) && Exposed(run[k - 1]))
    ensures Guarded(run[i]) && !HasTwoSessions(run[i].log)
  {
    if i == 0 {
    } else {
      RetriesAllowOneTrialSession(run, i - 1);
      if Next(run[i - 1], run[i]) {
        StepKeepsGuarded(run[i - 1], run[i]);
      } else {
        var r, created :| Retry(run[i - 1], run[i], r, created);
        RetryKeepsGuarded(run[i - 1], run[i], r, created);
      }
    }
  }

  ghost predicate IsRunFrom(s: State, run: seq<State>) {
    |run| > 0 && run[0] == s && forall k {:trigger run[k]} :: 0 < k < |run| ==> Next(run[k - 1], run[k])
  }

  /** A retry that succeeds leaves a second session possible, now or in some run that goes on without retries, exactly
      when the state is exposed: the columns are free, another checkout holds the reservation, or a session exists. */
  lemma RetryAllowsTwoExactlyWhenExposed(s: State, s': State, r: RequestId)
    requires Guarded(s) && Retry(s, s', r, true)
    ensures (exists run: seq<State> :: IsRunFrom(s', run) && HasTwoSessions(run[|run| - 1].log)) <==> Exposed(s)
  {
    LogAppend(s.log, L.Attempt(r, true));
    if Exposed(s) {
      var run := SecondSession(s, s', r);
    } else {
      RetryKeepsGuarded(s, s', r, true);
      forall run: seq<State> | IsRunFrom(s', run)
        ensures !HasTwoSessions(run[|run| - 1].log)
      {
        RunKeepsGuarded(run, |run| - 1);
      }
    }
  }

  /** In particular for the first retry of a run. */
  lemma FirstRetry(run: seq<State>, s': State, r: RequestId)
    requires IsRun(run) && Retry(run[|run| - 1], s', r, true)
    ensures (exists more: seq<State> :: IsRunFrom(s', more) && HasTwoSessions(more[|more| - 1].log)) <==>
              Exposed(run[|run| - 1])
  {
    RunKeepsInv(run, |run| - 1);
    InvIsGuarded(run[|run| - 1]);
    RetryAllowsTwoExactlyWhenExposed(run[|run| - 1], s', r);
  }

  lemma {:induction false} RunKeepsGuarded(run: seq<State>, i: nat)
    requires i < |run| && Guarded(run[0]) && IsRunFrom(run[0], run)
    ensures Guarded(run[i])
  {
    if i == 0 {
    } else {
      RunKeepsGuarded(run, i - 1);
      StepKeepsGuarded(run[i - 1], run[i]);
    }
  }

  lemma SecondSession(s: State, s': State, r: RequestId) returns (run: seq<State>)
    requires Guarded(s) && Retry(s, s', r, true) && Exposed(s)
    ensures IsRunFrom(s', run) && HasTwoSessions(run[|run| - 1].log)
  {
    LogAppend(s.log, L.Attempt(r, true));
    if HasSession(s.log) {
      run := [s'];
    } else if s.mark == NoMark {
      run := FreshCheckout(s');
    } else {
      var h :| h in s.pcs && MayFree(s.mark, s.pcs[h]);
      if s.pcs[h].Reserved? {
        run := [s', s'.(pcs := s'.pcs[h := Done], log := s'.log + [L.Attempt(h, true)])];
        LogAppend(s'.log, L.Attempt(h, true));
        assert CreateSession(run[0], run[1], h, true);
      } else {
        var freed := s'.(usedAt := None, mark := NoMark, pcs := s'.pcs[h := Done], marker := Nobody);
        assert Release(s', freed, h, false);
        run := FreshCheckout(freed);
        run := [s'] + run;
      }
    }
  }

  /** From free columns a new checkout gets trial days. */
  lemma FreshCheckout(s: State) returns (run: seq<State>)
    requires s.usedAt == None && s.mark == NoMark && HasSession(s.log)
    ensures IsRunFrom(s, run) && HasTwoSessions(run[|run| - 1].log)
  {
    var r := L.FreshRequest(s.pcs.Keys);
    var s1 := s.(pcs := s.pcs[r := Eligible]);
    assert Snapshot(s, s1, r, false);
    var s2 := s1.(usedAt := Some(0), mark := Pending(0), pcs := s1.pcs[r := Reserved(0)], marker := Checkout(r));
    assert Reserve(s1, s2, r, 0, 0);
    var s3 := s2.(pcs := s2.pcs[r := Done], log := s2.log + [L.Attempt(r, true)]);
    assert CreateSession(s2, s3, r, true);
    LogAppend(s.log, L.Attempt(r, true));
    run := [s, s1, s2, s3];
  }

  /** It happens: a literal run with two sessions, the second by a retry. */
  lemma RetryAllowsTwoTrialSessions() returns (run: seq<State>)
    ensures |run| == 9 && Init(run[0]) && run[0].usedAt == None
    ensures forall i {:trigger run[i]} :: 0 < i < 8 ==> Next(run[i - 1], run[i])
    ensures Retry(run[7], run[8], 0, true)
    ensures !L.AtMostOneSuccess(run[8].log)
  {
    var s0 := State(None, NoMark, map[], [], Nobody);
    var s1 := s0.(pcs := s0.pcs[0 := Eligible]);
    assert Snapshot(s0, s1, 0, false);
    var s2 := s1.(pcs := s1.pcs[1 := Eligible]);
    assert Snapshot(s1, s2, 1, false);
    var s3 := s2.(usedAt := Some(1), mark := Pending(10), pcs := s2.pcs[0 := Reserved(10)], marker := Checkout(0));
    assert Reserve(s2, s3, 0, 10, 1);
    var s4 := s3.(pcs := s3.pcs[0 := Failed(10)], log := s3.log + [L.Attempt(0, false)]);
    assert CreateSession(s3, s4, 0, false);
    var s5 := s4.(usedAt := None, mark := NoMark, pcs := s4.pcs[0 := MayRetry], marker := Nobody);
    assert Release(s4, s5, 0, true);
    var s6 := s5.(usedAt := Some(2), mark := Pending(20), pcs := s5.pcs[1 := Reserved(20)], marker := Checkout(1));
    assert Reserve(s5, s6, 1, 20, 2);
    var s7 := s6.(pcs := s6.pcs[1 := Done], log := s6.log + [L.Attempt(1, true)]);
    assert CreateSession(s6, s7, 1, true);
    var s8 := s7.(pcs := s7.pcs[0 := Done], log := s7.log + [L.Attempt(0, true)]);
    run := [s0, s1, s2, s3, s4, s5, s6, s7, s8];
    assert s8.log[1].ok && |s8.log| == 3;
  }

  // ---------- One checkout on its own ----------

  /** What Stripe answers to the creation of a checkout session. */
  datatype Reply = Created | NoSuchCustomer | OtherError

  /** The columns of the user's row, as far as checkouts know them. */
  datatype Columns = Columns(usedAt: Option<int>, mark: Mark)

  datatype Request = Request(hasStripeSubscription: bool, freshKey: nat, now: int, hasStoredCustomer: bool, first: Reply,
                             second: Reply)

  /** The session, if one is created, and whether it has trial days. A checkout that keeps its first reply keeps the trial
      and its reservation together. One that retries after "no such customer" does not: it can create a session with trial
      days and leave the columns free for another. */
  predicate IsEffect(c: Columns, c': Columns, q: Request, withTrial: Option<bool>) {
    var eligible := c == Columns(None, NoMark) && !q.hasStripeSubscription;
    if q.first == Created then
      withTrial == Some(eligible) && c' == if eligible then Columns(Some(q.now), Pending(q.freshKey)) else c
    else
      c' == c
      && withTrial == if q.first == NoSuchCustomer && q.hasStoredCustomer && q.second == Created then Some(eligible)
                      else None
  }

  /** A run from s in which the new request r alone goes from its first step to its last, and leaves the columns c. */
  ghost predicate IsCheckout(s: State, run: seq<State>, r: RequestId, c: Columns) {
    && IsRetryRun(s, run)
    && var end := run[|run| - 1];
       end.pcs == s.pcs[r := Done] && Columns(end.usedAt, end.mark) == c && s.log <= end.log
  }

  ghost predicate IsRetryRun(s: State, run: seq<State>) {
    |run| > 0 && run[0] == s && forall k {:trigger run[k]} :: 0 < k < |run| ==> NextWithRetry(run[k - 1], run[k])
  }

  lemma Prepend(s: State, s': State, run: seq<State>, r: RequestId, c: Columns)
    requires NextWithRetry(s, s') && IsCheckout(s', run, r, c) && s'.pcs[r := Done] == s.pcs[r := Done] && s'.log == s.log
    ensures IsCheckout(s, [s] + run, r, c) && (EndsInSession(s, [s] + run, r) <==> EndsInSession(s', run, r))
  {
    var more := [s] + run;
    assert forall k :: 0 < k < |more| ==> more[k] == run[k - 1];
    SameEnd(s, s', run, more, r);
  }

  lemma SameEnd(s: State, s': State, run: seq<State>, more: seq<State>, r: RequestId)
    requires |run| > 0 && |more| > 0 && more[|more| - 1] == run[|run| - 1] && s'.log == s.log
    ensures EndsInSession(s, more, r) <==> EndsInSession(s', run, r)
  {
  }

  lemma OneStep(s: State, s': State, r: RequestId)
    requires NextWithRetry(s, s') && s'.pcs == s.pcs[r := Done] && s'.log == s.log
    ensures IsCheckout(s, [s, s'], r, Columns(s'.usedAt, s'.mark)) && !EndsInSession(s, [s, s'], r)
  {
  }

  lemma SnapshotIsStep(s: State, s': State, r: RequestId, hasStripeSubscription: bool)
    requires Snapshot(s, s', r, hasStripeSubscription)
    ensures NextWithRetry(s, s')
  {
  }

  lemma ReserveIsStep(s: State, s': State, r: RequestId, key: nat, now: int)
    requires Reserve(s, s', r, key, now)
    ensures NextWithRetry(s, s')
  {
  }

  /** The last attempt since s was a success of r. */
  predicate EndsInSession(s: State, run: seq<State>, r: RequestId) {
    |run| > 0 && var log := run[|run| - 1].log; |log| > |s.log| && log[|log| - 1] == L.Attempt(r, true)
  }

  /** An uninterrupted checkout is such a run, and logs its session with trial days. */
  lemma CheckoutIsRun(s: State, r: RequestId, q: Request, c': Columns, withTrial: Option<bool>) returns (run: seq<State>)
    requires r !in s.pcs && IsEffect(Columns(s.usedAt, s.mark), c', q, withTrial)
    ensures IsCheckout(s, run, r, c')
    ensures withTrial == Some(true) <==> EndsInSession(s, run, r)
  {
    var snapshot := s.usedAt == None && !q.hasStripeSubscription;
    var s1 := s.(pcs := s.pcs[r := if snapshot then Eligible else Done]);
    SnapshotIsStep(s, s1, r, q.hasStripeSubscription);
    if snapshot {
      run := EligibleIsRun(s1, r, q, c', withTrial);
      Prepend(s, s1, run, r, c');
      run := [s] + run;
    } else {
      OneStep(s, s1, r);
      run := [s, s1];
    }
  }

  lemma EligibleIsRun(s: State, r: RequestId, q: Request, c': Columns, withTrial: Option<bool>) returns (run: seq<State>)
    requires r in s.pcs && s.pcs[r] == Eligible && s.usedAt == None && !q.hasStripeSubscription
    requires IsEffect(Columns(s.usedAt, s.mark), c', q, withTrial)
    ensures IsCheckout(s, run, r, c')
    ensures withTrial == Some(true) <==> EndsInSession(s, run, r)
  {
    if s.mark == NoMark {
      var s1 := State(Some(q.now), Pending(q.freshKey), s.pcs[r := Reserved(q.freshKey)], s.log, Checkout(r));
      ReserveIsStep(s, s1, r, q.freshKey, q.now);
      run := ReservedIsRun(s1, r, q);
      Prepend(s, s1, run, r, c');
      run := [s] + run;
    } else {
      var s1 := s.(pcs := s.pcs[r := Done]);
      ReserveIsStep(s, s1, r, q.freshKey, q.now);
      OneStep(s, s1, r);
      run := [s, s1];
    }
  }

  lemma ReservedIsRun(s: State, r: RequestId, q: Request) returns (run: seq<State>)
    requires r in s.pcs && s.pcs[r] == Reserved(q.freshKey) && s.mark == Pending(q.freshKey) && s.usedAt == Some(q.now)
    ensures var created := q.first == Created;
            var retried := q.first == NoSuchCustomer && q.hasStoredCustomer && q.second == Created;
            && IsCheckout(s, run, r, if created then Columns(s.usedAt, s.mark) else Columns(None, NoMark))
            && (EndsInSession(s, run, r) <==> created || retried)
  {
    var created := q.first == Created;
    var s1 := s.(pcs := s.pcs[r := if created then Done else Failed(q.freshKey)], log := s.log + [L.Attempt(r, created)]);
    assert CreateSession(s, s1, r, created);
    if created {
      run := [s, s1];
    } else {
      var retries := q.first == NoSuchCustomer && q.hasStoredCustomer;
      var s2 := State(None, NoMark, s1.pcs[r := if retries then MayRetry else Done], s1.log, Nobody);
      assert Release(s1, s2, r, retries);
      assert s2.pcs == s.pcs[r := if retries then MayRetry else Done];
      if retries {
        var s3 := s2.(pcs := s2.pcs[r := Done], log := s2.log + [L.Attempt(r, q.second == Created)]);
        assert Retry(s2, s3, r, q.second == Created);
        assert s3.pcs == s.pcs[r := Done];
        run := [s, s1, s2, s3];
      } else {
        run := [s, s1, s2];
      }
    }
  }

  class CheckoutService {
    var usedAt: Option<int>
    var mark: Mark

    constructor ()
      ensures usedAt == None && mark == NoMark
    {
      usedAt, mark := None, NoMark;
    }

    method CreateCheckoutSession(q: Request) returns (withTrial: Option<bool>)
      modifies this
      ensures IsEffect(old(Columns(usedAt, mark)), Columns(usedAt, mark), q, withTrial)
      ensures withTrial == Some(true) ==> old(usedAt) == None && old(mark) == NoMark && !q.hasStripeSubscription
    {
      var eligibleBySnapshot := usedAt.None? && !q.hasStripeSubscription;
      var eligibleForStripeTrial := false;
      var trialReservationKey: Option<nat> := None;
      if eligibleBySnapshot {
        if usedAt.None? && mark.NoMark? {
          usedAt, mark := Some(q.now), Pending(q.freshKey);
          eligibleForStripeTrial := true;
          trialReservationKey := Some(q.freshKey);
        }
      }
      if q.first == Created {
        return Some(eligibleForStripeTrial);
      }
      if trialReservationKey.Some? {
        if mark == Pending(trialReservationKey.value) {
          usedAt, mark := None, NoMark;
        }
      }
      if q.first == NoSuchCustomer && q.hasStoredCustomer && q.second == Created {
        return Some(eligibleForStripeTrial);
      }
      return None;
    }
  }
}
