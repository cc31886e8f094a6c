/** The trial-started message (src/subscription/trial.service.ts, maybeNotifyTrialStartedSlack). */
module TrialSlack {
  import opened Common
  import L = Lease

  type RequestId = L.RequestId

  /** Where a request is: it has read the grants and chosen a coordinator; has claimed its row; has failed to send. */
  datatype Pc = HasRead(coordinator: UserId) | Claimed(coordinator: UserId, at: int)
              | Failed(coordinator: UserId, at: int) | Done

  /** The trial grants of one linked cluster, with slackTrialStartedNotifiedAt; `claimant` records, for the proofs
      only, whose claim the coordinator's row last took. */
  datatype State = State(grants: map<UserId, Option<int>>, pcs: map<RequestId, Pc>, log: seq<L.Attempt>,
                         claimant: Option<RequestId>)

  /** grants[0]?.userId ?? userId, for grants ordered by userId */
  ghost predicate IsCoordinator(grants: map<UserId, Option<int>>, userId: UserId, c: UserId) {
    if grants.Keys == {} then c == userId else c in grants && forall u :: u in grants ==> c <= u
  }

  ghost predicate Read(s: State, s': State, r: RequestId, userId: UserId, c: UserId) {
    && r !in s.pcs && IsCoordinator(s.grants, userId, c)
    && s' == s.(pcs := s.pcs[r := if exists u :: u in s.grants && s.grants[u].Some? then Done else HasRead(c)])
  }

  predicate Claim(s: State, s': State, r: RequestId, at: int) {
    && r in s.pcs && s.pcs[r].HasRead?
    && var c := s.pcs[r].coordinator;
       s' == if c in s.grants && s.grants[c] == None
             then s.(grants := s.grants[c := Some(at)], pcs := s.pcs[r := Claimed(c, at)], claimant := Some(r))
             else s.(pcs := s.pcs[r := Done])
  }

  predicate Send(s: State, s': State, r: RequestId, sent: bool) {
    && r in s.pcs && s.pcs[r].Claimed?
    && s' == s.(pcs := s.pcs[r := if sent then Done else Failed(s.pcs[r].coordinator, s.pcs[r].at)],
                log := s.log + [L.Attempt(r, sent)])
  }

  predicate RollBack(s: State, s': State, r: RequestId) {
    && r in s.pcs && s.pcs[r].Failed?
    && var c, at := s.pcs[r].coordinator, s.pcs[r].at;
       s' == s.(grants := if c in s.grants && s.grants[c] == Some(at) then s.grants[c := None] else s.grants,
                pcs := s.pcs[r := Done])
  }

  predicate Crash(s: State, s': State, r: RequestId) {
    r in s.pcs && s' == s.(pcs := s.pcs[r := Done])
  }

  /** grantIfEligible creates a grant for another user of the cluster. */
  predicate AddGrant(s: State, s': State, u: UserId) {
    u !in s.grants && s' == s.(grants := s.grants[u := None])
  }

  ghost predicate RequestStep(s: State, s': State) {
    || (exists r, userId, c :: Read(s, s', r, userId, c))
    || (exists r, at :: Claim(s, s', r, at))
    || (exists r, sent :: Send(s, s', r, sent))
    || (exists r :: RollBack(s, s', r) || Crash(s, s', r))
  }

  // ---------- The refinement ----------

  ghost predicate Holds(pc: Pc) {
    pc.Claimed? || pc.Failed?
  }

  ghost predicate Marked(grants: map<UserId, Option<int>>) {
    exists u :: u in grants && grants[u].Some?
  }

  ghost function Holders(s: State): set<RequestId> {
    set r | r in s.pcs && Holds(s.pcs[r])
  }

  /** A new grant with the smallest user id is dangerous exactly in these states: some request has chosen its coordinator
      but not claimed it, and no grant is marked but by a claim that may still be rolled back. */
  ghost predicate Exposed(s: State) {
    && (exists r :: r in s.pcs && s.pcs[r].HasRead?)
    && (Marked(s.grants) ==> Holders(s) != {})
  }

  predicate IsSmallest(s: State, u: UserId) {
    forall v :: v in s.grants ==> u < v
  }

  /** Every step but a new grant with the smallest user id in an exposed state. */
  ghost predicate Next(s: State, s': State) {
    RequestStep(s, s') || exists u :: AddGrant(s, s', u) && !(IsSmallest(s, u) && Exposed(s))
  }

  ghost predicate Init(s: State) {
    s.grants.Keys != {} && s.pcs == map[] && s.log == [] && s.claimant == None
  }

  ghost function Abstract(s: State): L.Lease {
    L.Lease(Marked(s.grants), Holders(s), s.log)
  }

  /** No request will choose another coordinator than c: c is the smallest user id; or a grant is marked for good; or one
      is marked for now and no other request has chosen a coordinator. */
  ghost predicate Settled(s: State, c: UserId) {
    || IsCoordinator(s.grants, c, c)
    || (Marked(s.grants) && Holders(s) == {})
    || (Holders(s) != {} && forall r :: r in s.pcs ==> !s.pcs[r].HasRead?)
  }

  /** c is the coordinator of every request under way, no other grant is marked meanwhile, and a claim that can still be
      rolled back is in c's row. */
  ghost predicate InvAt(s: State, c: UserId) {
    && c in s.grants && Settled(s, c) && L.Inv(Abstract(s))
    && (forall r :: r in s.pcs && !s.pcs[r].Done? ==>
          s.pcs[r].coordinator == c && forall u :: u in s.grants && s.grants[u].Some? ==> u == c)
    && (forall r :: r in s.pcs && Holds(s.pcs[r]) ==> s.grants[c] == Some(s.pcs[r].at) && s.claimant == Some(r))
  }

  ghost predicate Inv(s: State) {
    exists c :: InvAt(s, c)
  }

  lemma StepRefinesLease(s: State, s': State)
    requires Inv(s) && Next(s, s')
    ensures Inv(s') && L.Next(Abstract(s), Abstract(s'))
  {
    var c :| InvAt(s, c);
    if r, userId, d :| Read(s, s', r, userId, d) {
      ReadChooses(s, s', r, userId, d, c);
    } else if r, at :| Claim(s, s', r, at) {
      ClaimClaims(s, s', r, at, c);
    } else if r, sent :| Send(s, s', r, sent) {
      SendActs(s, s', r, sent, c);
    } else if r :| RollBack(s, s', r) {
      RollBackReleases(s, s', r, c);
    } else if r :| Crash(s, s', r) {
      CrashDrops(s, s', r, c);
    } else {
      var u :| AddGrant(s, s', u) && !(IsSmallest(s, u) && Exposed(s));
      GrantIsHarmless(s, s', u, c);
    }
  }

  lemma ReadChooses(s: State, s': State, r: RequestId, userId: UserId, d: UserId, c: UserId)
    requires InvAt(s, c) && Read(s, s', r, userId, d)
    ensures InvAt(s', c) && L.Next(Abstract(s), Abstract(s'))
  {
    assert Holders(s') == Holders(s);
    HoldersMark(s, c);
    if !Marked(s.grants) {
      assert IsCoordinator(s.grants, c, c) && d == c;
    }
  }

  /** While a claim is under way its grant is marked. */
  lemma HoldersMark(s: State, c: UserId)
    requires InvAt(s, c)
    ensures Holders(s) != {} ==> Marked(s.grants)
  {
  }

  lemma ClaimClaims(s: State, s': State, r: RequestId, at: int, c: UserId)
    requires InvAt(s, c) && Claim(s, s', r, at)
    ensures InvAt(s', c) && L.Next(Abstract(s), Abstract(s'))
  {
    var l, l' := Abstract(s), Abstract(s');
    if s.grants[c] == None {
      assert !Marked(s.grants) && l.holders == {};
      assert s'.grants[c].Some?;
      assert l'.holders == l.holders + {r};
      assert L.Claim(l, l', r);
      L.NextKeepsInv(l, l');
      assert forall q :: q in s.pcs && Holds(s.pcs[q]) ==> q in l.holders;
    } else {
      assert l'.holders == l.holders;
    }
  }

  lemma SendActs(s: State, s': State, r: RequestId, sent: bool, c: UserId)
    requires InvAt(s, c) && Send(s, s', r, sent)
    ensures InvAt(s', c) && L.Next(Abstract(s), Abstract(s'))
  {
    var l, l' := Abstract(s), Abstract(s');
    assert r in l.holders;
    assert l'.holders == if sent then l.holders - {r} else l.holders;
    assert L.Act(l, l', r);
    L.NextKeepsInv(l, l');
  }

  lemma RollBackReleases(s: State, s': State, r: RequestId, c: UserId)
    requires InvAt(s, c) && RollBack(s, s', r)
    ensures Inv(s') && L.Next(Abstract(s), Abstract(s'))
  {
    var l, l' := Abstract(s), Abstract(s');
    assert r in l.holders && l'.holders == l.holders - {r};
    assert !Marked(s'.grants);
    assert L.Release(l, l', r);
    L.NextKeepsInv(l, l');
    assert l.holders == {r};
    forall q | q in s'.pcs
      ensures !Holds(s'.pcs[q])
    {
      assert Holds(s'.pcs[q]) ==> q in l'.holders;
    }
    if IsCoordinator(s.grants, c, c) {
      assert InvAt(s', c);
    } else {
      var d := LeastUser(s'.grants.Keys);
      assert InvAt(s', d);
    }
  }

  lemma CrashDrops(s: State, s': State, r: RequestId, c: UserId)
    requires InvAt(s, c) && Crash(s, s', r)
    ensures InvAt(s', c) && L.Next(Abstract(s), Abstract(s'))
  {
    var l, l' := Abstract(s), Abstract(s');
    HoldersMark(s, c);
    assert l'.holders == l.holders - {r};
    assert r in l.holders ==> L.Drop(l, l', r);
    L.NextKeepsInv(l, l');
    if r in l.holders {
      assert l'.holders == {};
    }
  }

  lemma GrantIsHarmless(s: State, s': State, u: UserId, c: UserId)
    requires InvAt(s, c) && AddGrant(s, s', u) && !(IsSmallest(s, u) && Exposed(s))
    ensures Inv(s') && L.Next(Abstract(s), Abstract(s'))
  {
    GrantLeavesLease(s, s', u);
    if !IsSmallest(s, u) {
      assert IsCoordinator(s.grants, c, c) ==> IsCoordinator(s'.grants, c, c);
      assert InvAt(s', c);
    } else if Marked(s.grants) && Holders(s) == {} {
      assert InvAt(s', c);
    } else if Holders(s) != {} {
      HoldersMark(s, c);
      assert InvAt(s', c);
    } else {
      NobodyUnderWay(s, c);
      assert InvAt(s', u);
    }
  }

  lemma GrantLeavesLease(s: State, s': State, u: UserId)
    requires AddGrant(s, s', u)
    ensures Abstract(s') == Abstract(s)
    ensures forall v :: v in s'.grants && s'.grants[v].Some? ==> v in s.grants && s.grants[v].Some?
  {
    forall v
      ensures v in s.grants && s.grants[v].Some? <==> v in s'.grants && s'.grants[v].Some?
    {
    }
    assert Marked(s'.grants) <==> Marked(s.grants);
    assert Holders(s') == Holders(s);
  }

  lemma NobodyUnderWay(s: State, c: UserId)
    requires InvAt(s, c) && !Exposed(s) && !Marked(s.grants)
    ensures forall r :: r in s.pcs ==> s.pcs[r].Done?
  {
    HoldersMark(s, c);
    forall r | r in s.pcs
      ensures s.pcs[r].Done?
    {
      assert Holds(s.pcs[r]) ==> r in Holders(s);
    }
  }

  // ---------- Every run ----------

  ghost predicate Steps(run: seq<State>) {
    |run| > 0 && forall i {:trigger run[i]} :: 0 < i < |run| ==> Next(run[i - 1], run[i])
  }

  ghost predicate IsRun(run: seq<State>) {
    Steps(run) && Init(run[0])
  }

  lemma {:induction false} StepsKeepInv(run: seq<State>, i: nat)
    requires Steps(run) && Inv(run[0]) && i < |run|
    ensures Inv(run[i])
  {
    if i == 0 {
    } else {
      StepsKeepInv(run, i - 1);
      StepRefinesLease(run[i - 1], run[i]);
    }
  }

  lemma InitIsInv(s: State)
    requires Init(s)
    ensures Inv(s)
  {
    var c := LeastUser(s.grants.Keys);
    assert InvAt(s, c);
  }

  lemma {:induction false} LeastUser(s: set<UserId>) returns (c: UserId)
    requires s != {}
    ensures c in s && forall u :: u in s ==> c <= u
  {
    var d :| d in s;
    var below := set v | v in s && v < d;
    if below == {} {
      c := d;
    } else {
      assert d !in below && below < s;
      c := LeastUser(below);
    }
    forall u | u in s
      ensures c <= u
    {
      assert u in below || d <= u;
    }
  }

  /** Over every interleaving of any number of requests with failed sends, roll-backs, crashes and new grants, as long as no
      new grant gets the smallest user id in an exposed state: at most one message of the cluster succeeds and none is
      attempted after it. */
  lemma AtMostOneTrialMessage(run: seq<State>, i: nat)
    requires IsRun(run) && i < |run|
    ensures L.AtMostOneSuccess(run[i].log)
  {
    InitIsInv(run[0]);
    StepsKeepInv(run, i);
  }

  /** Claim times may coincide; still, a roll-back that clears the row clears the claim of its own request. */
  lemma RollBackClearsOwnClaim(run: seq<State>, i: nat, r: RequestId)
    requires IsRun(run) && 0 < i < |run| && RollBack(run[i - 1], run[i], r)
    ensures run[i].grants != run[i - 1].grants && run[i - 1].claimant == Some(r)
  {
    InitIsInv(run[0]);
    StepsKeepInv(run, i - 1);
    var c :| InvAt(run[i - 1], c);
    assert run[i].grants[c] == None;
  }

  // ---------- New grants with the smallest user id ----------

  /** A new grant with the smallest user id admits a run with two messages exactly when the state before it is exposed. */
  lemma SmallestGrantBreaksExactlyWhenExposed(s: State, s': State, u: UserId)
    requires Inv(s) && AddGrant(s, s', u) && IsSmallest(s, u)
    ensures Exposed(s) <==>
              exists run: seq<State> :: Steps(run) && run[0] == s' && !L.AtMostOneSuccess(run[|run| - 1].log)
  {
    if Exposed(s) {
      var run := TwoMessages(s, s', u);
    } else {
      assert Next(s, s');
      StepRefinesLease(s, s');
      forall run: seq<State> | Steps(run) && run[0] == s'
        ensures L.AtMostOneSuccess(run[|run| - 1].log)
      {
        StepsKeepInv(run, |run| - 1);
      }
    }
  }

  lemma TwoMessages(s: State, s': State, u: UserId) returns (run: seq<State>)
    requires Inv(s) && AddGrant(s, s', u) && IsSmallest(s, u) && Exposed(s)
    ensures Steps(run) && run[0] == s' && !L.AtMostOneSuccess(run[|run| - 1].log)
  {
    var c :| InvAt(s, c);
    var q :| q in s.pcs && s.pcs[q].HasRead?;
    GrantLeavesLease(s, s', u);
    var before := ClearClaim(s, s', c, q);
    var last := before[|before| - 1];
    var r := L.FreshRequest(last.pcs.Keys);
    var after := TwoClaims(last, q, c, r, u);
    Concatenate(before, after);
    run := before + after[1..];
  }

  /** The claim under way, if there is one, is rolled back after a failed message. */
  lemma ClearClaim(s: State, s': State, c: UserId, q: RequestId) returns (run: seq<State>)
    requires InvAt(s, c) && q in s.pcs && s.pcs[q].HasRead? && (Marked(s.grants) ==> Holders(s) != {})
    requires s'.grants.Keys >= s.grants.Keys && s' == s.(grants := s'.grants)
    requires forall v :: v in s.grants ==> s'.grants[v] == s.grants[v]
    requires forall v :: v in s'.grants && s'.grants[v].Some? ==> v in s.grants
    ensures Steps(run) && run[0] == s'
    ensures var last := run[|run| - 1];
            && last.grants.Keys == s'.grants.Keys && !Marked(last.grants)
            && q in last.pcs && last.pcs[q] == HasRead(c)
  {
    if !Marked(s.grants) {
      run := [s'];
    } else {
      var h :| h in Holders(s);
      var failed := s';
      run := [s'];
      if s.pcs[h].Claimed? {
        failed := s'.(pcs := s'.pcs[h := Failed(c, s.pcs[h].at)], log := s'.log + [L.Attempt(h, false)]);
        assert Send(s', failed, h, false);
        run := [s', failed];
      }
      var cleared := failed.(grants := failed.grants[c := None], pcs := failed.pcs[h := Done]);
      assert RollBack(failed, cleared, h);
      run := run + [cleared];
      assert failed.pcs[h] == Failed(c, s.pcs[h].at);
    }
  }

  /** q has chosen c; r chooses u; both claim and both send. */
  lemma TwoClaims(s: State, q: RequestId, c: UserId, r: RequestId, u: UserId) returns (run: seq<State>)
    requires q in s.pcs && s.pcs[q] == HasRead(c) && r !in s.pcs && c != u && c in s.grants
    requires !Marked(s.grants) && IsCoordinator(s.grants, u, u) && u in s.grants
    ensures Steps(run) && run[0] == s && |run| == 6
    ensures run[5].log == s.log + [L.Attempt(q, true), L.Attempt(r, true)]
    ensures !L.AtMostOneSuccess(run[5].log)
  {
    var s1 := s.(pcs := s.pcs[r := HasRead(u)]);
    assert Read(s, s1, r, u, u);
    var s2 := s1.(grants := s1.grants[c := Some(1)], pcs := s1.pcs[q := Claimed(c, 1)], claimant := Some(q));
    assert Claim(s1, s2, q, 1);
    var s3 := s2.(pcs := s2.pcs[q := Done], log := s2.log + [L.Attempt(q, true)]);
    assert Send(s2, s3, q, true);
    var s4 := s3.(grants := s3.grants[u := Some(2)], pcs := s3.pcs[r := Claimed(u, 2)], claimant := Some(r));
    assert Claim(s3, s4, r, 2);
    var s5 := s4.(pcs := s4.pcs[r := Done], log := s4.log + [L.Attempt(r, true)]);
    assert Send(s4, s5, r, true);
    run := [s, s1, s2, s3, s4, s5];
    assert s5.log == s.log + [L.Attempt(q, true), L.Attempt(r, true)];
    assert s5.log[|s.log|].ok;
  }

  lemma Concatenate(a: seq<State>, b: seq<State>)
    requires Steps(a) && Steps(b) && a[|a| - 1] == b[0]
    ensures Steps(a + b[1..]) && (a + b[1..])[0] == a[0] && (a + b[1..])[|a| + |b| - 2] == b[|b| - 1]
  {
    var run := a + b[1..];
    forall i {:trigger run[i]} | 0 < i < |run|
      ensures Next(run[i - 1], run[i])
    {
      if i < |a| {
        assert run[i] == a[i] && run[i - 1] == a[i - 1];
      } else {
        assert run[i] == b[i - |a| + 1] && run[i - 1] == b[i - |a|];
      }
    }
  }

  /** It happens, whatever the grants of the cluster: a literal run, from the first request on. */
  lemma SmallerGrantAllowsTwoMessages(grants: map<UserId, Option<int>>, c: UserId, u: UserId) returns (run: seq<State>)
    requires c in grants && (forall v :: v in grants ==> c <= v && grants[v] == None) && u < c
    ensures |run| == 8 && Init(run[0]) && run[0].grants == grants
    ensures forall i {:trigger run[i]} :: 0 < i < |run| ==> RequestStep(run[i - 1], run[i]) || AddGrant(run[i - 1], run[i], u)
    ensures run[7].log == [L.Attempt(0, true), L.Attempt(1, true)] && !L.AtMostOneSuccess(run[7].log)
  {
    var s0 := State(grants, map[], [], None);
    var s1 := s0.(pcs := s0.pcs[0 := HasRead(c)]);
    assert Read(s0, s1, 0, c, c);
    var s2 := s1.(grants := s1.grants[u := None]);
    assert AddGrant(s1, s2, u);
    var s3 := s2.(pcs := s2.pcs[1 := HasRead(u)]);
    assert Read(s2, s3, 1, u, u);
    var s4 := s3.(grants := s3.grants[c := Some(1)], pcs := s3.pcs[0 := Claimed(c, 1)], claimant := Some(0));
    assert Claim(s3, s4, 0, 1);
    var s5 := s4.(pcs := s4.pcs[0 := Done], log := s4.log + [L.Attempt(0, true)]);
    assert Send(s4, s5, 0, true);
    var s6 := s5.(grants := s5.grants[u := Some(2)], pcs := s5.pcs[1 := Claimed(u, 2)], claimant := Some(1));
    assert Claim(s5, s6, 1, 2);
    var s7 := s6.(pcs := s6.pcs[1 := Done], log := s6.log + [L.Attempt(1, true)]);
    assert Send(s6, s7, 1, true);
    run := [s0, s1, s2, s3, s4, s5, s6, s7];
    assert run[7].log[0].ok;
  }

  // ---------- One request on its own ----------

  /** What an uninterrupted request does: the coordinator's row is marked exactly when a message was due and went out, and a
      failed send leaves every row as it was. `sends` is what notifyTrialStarted returns. */
  ghost predicate IsEffect(grants: map<UserId, Option<int>>, grants': map<UserId, Option<int>>, userId: UserId,
                           claimAt: int, sends: bool, attempted: bool) {
    && (attempted <==> grants.Keys != {} && !Marked(grants))
    && (!(attempted && sends) ==> grants' == grants)
    && (attempted && sends ==>
          exists c :: IsCoordinator(grants, userId, c) && grants' == grants[c := Some(claimAt)])
  }

  /** That is a run of the protocol's steps by one new request r, which logs the message if one was attempted. */
  lemma NotificationIsRun(s: State, r: RequestId, userId: UserId, grants': map<UserId, Option<int>>, claimAt: int,
                          sends: bool, attempted: bool) returns (run: seq<State>)
    requires r !in s.pcs && IsEffect(s.grants, grants', userId, claimAt, sends, attempted)
    ensures Steps(run) && run[0] == s
    ensures var end := run[|run| - 1];
            && end.pcs == s.pcs[r := Done] && end.grants == grants'
            && end.log == s.log + if attempted then [L.Attempt(r, sends)] else []
  {
    var c := userId;
    if s.grants.Keys != {} {
      c := LeastUser(s.grants.Keys);
    }
    var s1 := s.(pcs := s.pcs[r := if Marked(s.grants) then Done else HasRead(c)]);
    assert Read(s, s1, r, userId, c);
    if Marked(s.grants) {
      run := [s, s1];
    } else if s.grants.Keys == {} {
      var s2 := s1.(pcs := s1.pcs[r := Done]);
      assert Claim(s1, s2, r, claimAt);
      assert s2.pcs == s.pcs[r := Done];
      run := [s, s1, s2];
    } else {
      run := DueIsRun(s1, r, c, claimAt, sends);
      Concatenate([s, s1], run);
      run := [s, s1] + run[1..];
      assert s1.pcs[r := Done] == s.pcs[r := Done];
      assert s.grants[c := None] == s.grants;
      assert forall d :: IsCoordinator(s.grants, userId, d) ==> d == c;
    }
  }

  lemma DueIsRun(s: State, r: RequestId, c: UserId, claimAt: int, sends: bool) returns (run: seq<State>)
    requires r in s.pcs && s.pcs[r] == HasRead(c) && c in s.grants && s.grants[c] == None
    ensures Steps(run) && run[0] == s && |run| > 1
    ensures var end := run[|run| - 1];
            && end.pcs == s.pcs[r := Done] && end.log == s.log + [L.Attempt(r, sends)]
            && end.grants == s.grants[c := if sends then Some(claimAt) else None]
  {
    var s1 := s.(grants := s.grants[c := Some(claimAt)], pcs := s.pcs[r := Claimed(c, claimAt)], claimant := Some(r));
    assert Claim(s, s1, r, claimAt);
    var s2 := s1.(pcs := s1.pcs[r := if sends then Done else Failed(c, claimAt)], log := s1.log + [L.Attempt(r, sends)]);
    assert Send(s1, s2, r, sends);
    if sends {
      assert s2.pcs == s.pcs[r := Done];
      run := [s, s1, s2];
    } else {
      var s3 := s2.(grants := s2.grants[c := None], pcs := s2.pcs[r := Done]);
      assert RollBack(s2, s3, r);
      assert s3.pcs == s.pcs[r := Done] && s3.grants == s.grants[c := None];
      run := [s, s1, s2, s3];
    }
  }

  /** The service with its trial_grants table, restricted to one cluster. */
  class TrialNotifier {
    var grants: map<UserId, Option<int>>

    constructor (grants: map<UserId, Option<int>>)
      ensures this.grants == grants
    {
      this.grants := grants;
    }

    method ReadCoordinator(userId: UserId) returns (c: UserId)
      ensures IsCoordinator(grants, userId, c)
    {
      c := userId;
      if grants.Keys != {} {
        var rest := grants.Keys;
        c :| c in rest;
        rest := rest - {c};
        while rest != {}
          invariant c in grants && rest <= grants.Keys
          invariant forall u :: u in grants && u !in rest ==> c <= u
          decreases rest
        {
          var u :| u in rest;
          rest := rest - {u};
          if u < c {
            c := u;
          }
        }
      }
    }

    method MaybeNotifyTrialStartedSlack(userId: UserId, claimAt: int, sends: bool) returns (attempted: bool)
      modifies this
      ensures IsEffect(old(grants), grants, userId, claimAt, sends, attempted)
    {
      attempted := false;
      var coordinator := ReadCoordinator(userId);
      if exists u :: u in grants && grants[u].Some? {
        return;
      }
      if !(coordinator in grants && grants[coordinator] == None) {
        return;
      }
      grants := grants[coordinator := Some(claimAt)];
      attempted := true;
      if !sends {
        if coordinator in grants && grants[coordinator] == Some(claimAt) {
          grants := grants[coordinator := None];
        }
      }
    }
  }
}
