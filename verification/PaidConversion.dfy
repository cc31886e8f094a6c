/** The paid-conversion message (src/notification/paid-conversion-slack.service.ts). */
module PaidConversion {
  import opened Common
  import L = Lease

  type RequestId = L.RequestId
  type Key = string
  type RowId = nat

  datatype Pc = Acquired(key: Key, id: RowId) | Failed(key: Key, id: RowId) | Done

  /** A row of paid_conversion_slack_notifications; `request` records, for the proofs only, which request created it. */
  datatype Row = Row(dedupeKey: Key, request: RequestId)

  datatype State = State(rows: map<RowId, Row>, pcs: map<RequestId, Pc>, logs: map<Key, seq<L.Attempt>>)

  ghost predicate Taken(rows: map<RowId, Row>, key: Key) {
    exists id :: id in rows && rows[id].dedupeKey == key
  }

  /** create() under a fresh id, or P2002 because dedupeKey is unique. */
  ghost predicate Acquire(s: State, s': State, r: RequestId, key: Key, id: RowId) {
    && r !in s.pcs && id !in s.rows
    && s' == if Taken(s.rows, key) then s.(pcs := s.pcs[r := Done])
             else s.(rows := s.rows[id := Row(key, r)], pcs := s.pcs[r := Acquired(key, id)])
  }

  function LogOf(s: State, key: Key): seq<L.Attempt> {
    if key in s.logs then s.logs[key] else []
  }

  predicate Send(s: State, s': State, r: RequestId, sent: bool) {
    && r in s.pcs && s.pcs[r].Acquired?
    && var key := s.pcs[r].key;
       s' == s.(pcs := s.pcs[r := if sent then Done else Failed(key, s.pcs[r].id)],
                logs := s.logs[key := LogOf(s, key) + [L.Attempt(r, sent)]])
  }

  /** delete() by id: after a failed send, or, for Apple, when the user turns out to be in an active trial. */
  predicate Delete(s: State, s': State, r: RequestId) {
    && r in s.pcs && !s.pcs[r].Done?
    && s' == s.(rows := s.rows - {s.pcs[r].id}, pcs := s.pcs[r := Done])
  }

  predicate Crash(s: State, s': State, r: RequestId) {
    r in s.pcs && s' == s.(pcs := s.pcs[r := Done])
  }

  ghost predicate Next(s: State, s': State) {
    || (exists r, key, id :: Acquire(s, s', r, key, id))
    || (exists r, sent :: Send(s, s', r, sent))
    || (exists r :: Delete(s, s', r) || Crash(s, s', r))
  }

  /** Any rows left by earlier notifications, no request under way. */
  ghost predicate Init(s: State) {
    && s.pcs == map[] && s.logs == map[]
    && forall i, j :: i in s.rows && j in s.rows && s.rows[i].dedupeKey == s.rows[j].dedupeKey ==> i == j
  }

  ghost predicate HoldsKey(pc: Pc, key: Key) {
    !pc.Done? && pc.key == key
  }

  ghost function Abstract(s: State, key: Key): L.Lease {
    L.Lease(Taken(s.rows, key), (set r | r in s.pcs && HoldsKey(s.pcs[r], key)), LogOf(s, key))
  }

  /** Dedupe keys are unique, and a request that may still delete names the row that it created. */
  ghost predicate RowsInv(s: State) {
    && (forall i, j :: i in s.rows && j in s.rows && s.rows[i].dedupeKey == s.rows[j].dedupeKey ==> i == j)
    && (forall r :: r in s.pcs && !s.pcs[r].Done? ==>
          s.pcs[r].id in s.rows && s.rows[s.pcs[r].id] == Row(s.pcs[r].key, r))
  }

  lemma StepRefinesLease(s: State, s': State, key: Key)
    requires RowsInv(s) && L.Inv(Abstract(s, key)) && Next(s, s')
    ensures RowsInv(s') && L.Inv(Abstract(s', key)) && L.Next(Abstract(s, key), Abstract(s', key))
  {
    if r, k, id :| Acquire(s, s', r, k, id) {
      AcquireTakesKey(s, s', r, k, id, key);
    } else if r, sent :| Send(s, s', r, sent) {
      SendActs(s, s', r, sent, key);
    } else if r :| Delete(s, s', r) {
      DeleteFreesKey(s, s', r, key);
    } else if r :| Crash(s, s', r) {
      CrashDrops(s, s', r, key);
    }
    L.NextKeepsInv(Abstract(s, key), Abstract(s', key));
  }

  lemma SendActs(s: State, s': State, r: RequestId, sent: bool, key: Key)
    requires RowsInv(s) && Send(s, s', r, sent)
    ensures RowsInv(s') && L.Next(Abstract(s, key), Abstract(s', key))
  {
    var l, l' := Abstract(s, key), Abstract(s', key);
    var k := s.pcs[r].key;
    assert l'.holders == if k == key && sent then l.holders - {r} else l.holders;
    assert k == key ==> L.Act(l, l', r);
  }

  lemma CrashDrops(s: State, s': State, r: RequestId, key: Key)
    requires RowsInv(s) && Crash(s, s', r)
    ensures RowsInv(s') && L.Next(Abstract(s, key), Abstract(s', key))
  {
    var l, l' := Abstract(s, key), Abstract(s', key);
    assert l'.holders == l.holders - {r};
    assert r in l.holders ==> L.Drop(l, l', r);
  }

  lemma AcquireTakesKey(s: State, s': State, r: RequestId, k: Key, id: RowId, key: Key)
    requires RowsInv(s) && Acquire(s, s', r, k, id)
    ensures RowsInv(s') && L.Next(Abstract(s, key), Abstract(s', key))
  {
    var l, l' := Abstract(s, key), Abstract(s', key);
    if Taken(s.rows, k) {
      assert l'.holders == l.holders;
    } else {
      assert s'.rows[id].dedupeKey == k;
      assert forall i :: i in s.rows ==> i in s'.rows && s'.rows[i] == s.rows[i] && s.rows[i].dedupeKey != k;
      assert Taken(s'.rows, key) <==> Taken(s.rows, key) || k == key;
      if k == key {
        assert l'.holders == l.holders + {r};
        assert L.Claim(l, l', r);
      } else {
        assert l'.holders == l.holders;
      }
    }
  }

  lemma DeleteFreesKey(s: State, s': State, r: RequestId, key: Key)
    requires RowsInv(s) && Delete(s, s', r)
    ensures RowsInv(s') && L.Next(Abstract(s, key), Abstract(s', key))
  {
    var l, l' := Abstract(s, key), Abstract(s', key);
    var id, k := s.pcs[r].id, s.pcs[r].key;
    assert l'.holders == l.holders - {r};
    forall i | i in s.rows && i != id
      ensures i in s'.rows && s'.rows[i] == s.rows[i] && s.rows[i].dedupeKey != k
    {
    }
    assert Taken(s'.rows, key) <==> Taken(s.rows, key) && key != k;
    if k == key {
      assert L.Release(l, l', r);
    } else {
      assert l'.holders == l.holders;
    }
  }

  ghost predicate IsRun(run: seq<State>) {
    |run| > 0 && Init(run[0]) && forall i {:trigger run[i]} :: 0 < i < |run| ==> Next(run[i - 1], run[i])
  }

  lemma {:induction false} RunKeepsInv(run: seq<State>, key: Key, i: nat)
    requires IsRun(run) && i < |run|
    ensures RowsInv(run[i]) && L.Inv(Abstract(run[i], key))
  {
    if i == 0 {
    } else {
      RunKeepsInv(run, key, i - 1);
      StepRefinesLease(run[i - 1], run[i], key);
    }
  }

  /** Over every interleaving, each dedupe key has at most one successful message and none is attempted after it. */
  lemma AtMostOnePaidMessagePerKey(run: seq<State>, i: nat, key: Key)
    requires IsRun(run) && i < |run|
    ensures L.AtMostOneSuccess(LogOf(run[i], key))
  {
    RunKeepsInv(run, key, i);
  }

  /** A release deletes exactly the row that its own request created. */
  lemma DeleteRemovesOwnRow(run: seq<State>, i: nat, r: RequestId)
    requires IsRun(run) && 0 < i < |run| && Delete(run[i - 1], run[i], r)
    ensures exists id :: id in run[i - 1].rows && run[i - 1].rows[id].request == r
                         && run[i].rows == run[i - 1].rows - {id}
  {
    RunKeepsInv(run, "", i - 1);
  }

  // ---------- One request on its own ----------

  ghost predicate Steps(run: seq<State>) {
    |run| > 0 && forall i {:trigger run[i]} :: 0 < i < |run| ==> Next(run[i - 1], run[i])
  }

  /** What an uninterrupted request does with the table and the messages that went out: a message is due if the key is free
      and the request does not withdraw; the row stays exactly if it went out, and otherwise nothing changes. `sends` is
      what notifyPaidConversion returns. */
  ghost predicate IsEffect(rows: map<RowId, Row>, rows': map<RowId, Row>, sent: seq<Key>, sent': seq<Key>, key: Key,
                           r: RequestId, id: RowId, withdraws: bool, sends: bool) {
    if !Taken(rows, key) && !withdraws && sends then rows' == rows[id := Row(key, r)] && sent' == sent + [key]
    else rows' == rows && sent' == sent
  }

  /** That is a run of the protocol's steps by one new request r, which logs the message if one was attempted. */
  lemma NotificationIsRun(s: State, r: RequestId, key: Key, id: RowId, withdraws: bool, sends: bool,
                          rows': map<RowId, Row>, sent: seq<Key>, sent': seq<Key>) returns (run: seq<State>)
    requires r !in s.pcs && id !in s.rows && IsEffect(s.rows, rows', sent, sent', key, r, id, withdraws, sends)
    ensures Steps(run) && run[0] == s
    ensures var end := run[|run| - 1];
            && end.pcs == s.pcs[r := Done] && end.rows == rows'
            && LogOf(end, key) ==
                 LogOf(s, key) + (if !Taken(s.rows, key) && !withdraws then [L.Attempt(r, sends)] else [])
            && (sent' != sent <==> LogOf(end, key) == LogOf(s, key) + [L.Attempt(r, true)])
  {
    assert |sent + [key]| > |sent|;
    assert |LogOf(s, key) + [L.Attempt(r, true)]| > |LogOf(s, key) + []|;
    assert (LogOf(s, key) + [L.Attempt(r, true)])[|LogOf(s, key)|].ok;
    if Taken(s.rows, key) {
      var s1 := s.(pcs := s.pcs[r := Done]);
      assert Acquire(s, s1, r, key, id);
      run := [s, s1];
    } else {
      var s1 := s.(rows := s.rows[id := Row(key, r)], pcs := s.pcs[r := Acquired(key, id)]);
      assert Acquire(s, s1, r, key, id);
      if withdraws {
        var s2 := GivesUp(s, s1, r, id);
        run := [s, s1, s2];
      } else {
        var s2 := s1.(pcs := s1.pcs[r := if sends then Done else Failed(key, id)],
                      logs := s1.logs[key := LogOf(s1, key) + [L.Attempt(r, sends)]]);
        assert Send(s1, s2, r, sends);
        if sends {
          assert s2.pcs == s.pcs[r := Done];
          run := [s, s1, s2];
        } else {
          var s3 := GivesUp(s, s2, r, id);
          run := [s, s1, s2, s3];
        }
      }
    }
  }

  lemma GivesUp(s: State, mid: State, r: RequestId, id: RowId) returns (end: State)
    requires id !in s.rows && mid.rows.Keys == s.rows.Keys + {id} && r in mid.pcs && !mid.pcs[r].Done?
    requires mid.pcs[r].id == id && mid.pcs[r := Done] == s.pcs[r := Done]
    requires forall i :: i in s.rows ==> mid.rows[i] == s.rows[i]
    ensures Next(mid, end) && end.rows == s.rows && end.pcs == s.pcs[r := Done] && end.logs == mid.logs
  {
    end := mid.(rows := mid.rows - {id}, pcs := mid.pcs[r := Done]);
    assert Delete(mid, end, r);
    assert end.rows == s.rows;
  }

  /** The service with its table, and the messages that went out. */
  class PaidConversionSlackService {
    var rows: map<RowId, Row>
    var sent: seq<Key>

    constructor ()
      ensures rows == map[] && sent == []
    {
      rows, sent := map[], [];
    }

    method TryAcquireDedupeKey(dedupeKey: Key, request: RequestId, freshId: RowId) returns (id: Option<RowId>)
      requires freshId !in rows
      modifies this`rows
      ensures id.None? <==> old(Taken(rows, dedupeKey))
      ensures id.None? ==> rows == old(rows)
      ensures id.Some? ==> id.value == freshId && rows == old(rows)[freshId := Row(dedupeKey, request)]
    {
      if Exists(rows, dedupeKey) {
        return None;
      }
      rows := rows[freshId := Row(dedupeKey, request)];
      return Some(freshId);
    }

    static predicate Exists(rows: map<RowId, Row>, key: Key)
      ensures Exists(rows, key) <==> Taken(rows, key)
    {
      key in set id | id in rows :: rows[id].dedupeKey
    }

    /** Stripe: a subscription that is not active is passed over before its key is looked at. */
    method MaybeNotifyStripePaidConversion(dedupeKey: Key, request: RequestId, freshId: RowId, rawStatusIsActive: bool,
                                           sends: bool)
      requires freshId !in rows
      modifies this
      ensures if rawStatusIsActive then IsEffect(old(rows), rows, old(sent), sent, dedupeKey, request, freshId, false, sends)
              else rows == old(rows) && sent == old(sent)
    {
      if !rawStatusIsActive {
        return;
      }
      var id := TryAcquireDedupeKey(dedupeKey, request, freshId);
      if id.None? {
        return;
      }
      if sends {
        sent := sent + [dedupeKey];
      } else {
        rows := rows - {id.value};
      }
    }

    /** Apple: a request for a user in an active trial withdraws after it has acquired the key. */
    method MaybeNotifyApplePaidConversion(dedupeKey: Key, request: RequestId, freshId: RowId, inActiveTrial: bool,
                                          sends: bool)
      requires freshId !in rows
      modifies this
      ensures IsEffect(old(rows), rows, old(sent), sent, dedupeKey, request, freshId, inActiveTrial, sends)
    {
      var id := TryAcquireDedupeKey(dedupeKey, request, freshId);
      if id.None? {
        return;
      }
      if inActiveTrial {
        rows := rows - {id.value};
        return;
      }
      if sends {
        sent := sent + [dedupeKey];
      } else {
        rows := rows - {id.value};
      }
    }
  }
}
