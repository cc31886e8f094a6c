/**
 Claim / act / roll back. Three protocols of the repository share one shape: a request claims a cell by
 compare-and-set, acts (sends a message, opens a checkout), and gives the claim back if the action failed. `Lease` is
 the shape; each protocol below it is a state machine over its own database steps, run by any number of concurrent
 requests, and refines it.
 */
module Lease {
  type RequestId = nat

  datatype Attempt = Attempt(request: RequestId, ok: bool)

  /** Whether the cell is taken, which requests may still act on a claim, and every action attempted so far. */
  datatype Lease = Lease(held: bool, holders: set<RequestId>, log: seq<Attempt>)

  ghost predicate Next(l: Lease, l': Lease) {
    || l' == l
    || (exists r :: Claim(l, l', r) || Act(l, l', r) || Release(l, l', r) || Drop(l, l', r))
    || l' == l.(held := true)
  }

  predicate Claim(l: Lease, l': Lease, r: RequestId) {
    !l.held && l' == Lease(true, l.holders + {r}, l.log)
  }

  /** A holder acts; if that succeeds it is no longer a holder and the cell stays taken. */
  predicate Act(l: Lease, l': Lease, r: RequestId) {
    && r in l.holders
    && (|| l' == Lease(l.held, l.holders - {r}, l.log + [Attempt(r, true)])
        || l' == Lease(l.held, l.holders, l.log + [Attempt(r, false)]))
  }

  predicate Release(l: Lease, l': Lease, r: RequestId) {
    r in l.holders && l' == Lease(false, l.holders - {r}, l.log)
  }

  /** A holder crashes, or its roll-back matches no row. */
  predicate Drop(l: Lease, l': Lease, r: RequestId) {
    r in l.holders && l' == Lease(l.held, l.holders - {r}, l.log)
  }

  /** At most one action succeeds, and none is attempted after it. */
  ghost predicate AtMostOneSuccess(log: seq<Attempt>) {
    forall i :: 0 <= i < |log| - 1 ==> !log[i].ok
  }

  ghost predicate Inv(l: Lease) {
    && AtMostOneSuccess(l.log)
    && (forall r, s :: r in l.holders && s in l.holders ==> r == s)
    && (l.holders != {} ==> l.held)
    && (l.log != [] && l.log[|l.log| - 1].ok ==> l.held && l.holders == {})
  }

  lemma NextKeepsInv(l: Lease, l': Lease)
    requires Inv(l) && Next(l, l')
    ensures Inv(l')
  {
    if r :| Claim(l, l', r) {
      assert l.holders == {};
    } else if r :| Release(l, l', r) || Drop(l, l', r) || Act(l, l', r) {
      assert l.holders == {r} && l.holders - {r} == {};
      if l.log != [] {
        assert !l.log[|l.log| - 1].ok;
      }
    }
  }

  /** There is always another request id. */
  lemma {:induction false} FreshRequest(taken: set<RequestId>) returns (r: RequestId)
    ensures r !in taken && forall q :: q in taken ==> q < r
    decreases taken
  {
    if taken == {} {
      r := 0;
    } else {
      var q :| q in taken;
      var r0 := FreshRequest(taken - {q});
      r := if q >= r0 then q + 1 else r0;
      assert forall u :: u in taken ==> u == q || u in taken - {q};
    }
  }
}
