/**
 The Apple ledger and the account model are one system: a subscription row of AppleLedger is a row of Accounts, and an
 operation of the ledger (src/payment/apple/apple.service.ts), although its update writes the owner's column too, is a
 payment step of the account model, as long as its ids agree with the record.
 */
module AppleAccounts {
  import opened Common
  import A = Accounts
  import L = AppleLedger

  /** The account model's detail column: the two Apple ids, or a row of another payment service. */
  datatype Detail = AppleRow(tx: L.TxId, original: L.TxId) | OtherRow

  type Db = A.Db<Detail>

  /** Which of the other statuses an inactive subscription has makes no difference. */
  predicate Shows(row: A.Subscription<Detail>, s: L.Subscription) {
    && row.owner == s.owner && row.periodEnd == s.periodEnd && row.detail == AppleRow(s.tx, s.original)
    && row.status != A.Trialing && (row.status == A.Active <==> s.active)
  }

  /** The Apple rows of the database are the subscriptions of the ledger. */
  ghost predicate Mirrors(db: Db, l: L.Ledger) {
    && (forall i: A.SubId :: i in l.subs <==> i in db.subs && db.subs[i].detail.AppleRow?)
    && (forall i: A.SubId :: i in l.subs ==> Shows(db.subs[i], l.subs[i]))
  }

  function WithRow(db: Db, i: A.SubId, row: A.Subscription<Detail>): Db {
    db.(subs := db.subs[i := row], rows := if i in db.subs then db.rows else db.rows[A.Key(i, row.owner) := A.Owner])
  }

  /** The write of a ledger operation that ends in l': none, or one row, in place or new with its OWNER row. The owner that
      an update writes is left open here. */
  ghost predicate Writes(db: Db, db': Db, l': L.Ledger) {
    && Mirrors(db', l')
    && (|| db' == db
        || exists i, row :: db' == WithRow(db, i, row) && row.detail.AppleRow? && row.owner in db.users
                            && (i in db.subs ==> db.subs[i].detail.AppleRow? && row.createdAt == db.subs[i].createdAt))
  }

  ghost predicate OwnersKept(l: L.Ledger, l': L.Ledger) {
    forall i: A.SubId :: i in l.subs && i in l'.subs ==> l'.subs[i].owner == l.subs[i].owner
  }

  /** Such a write is a payment step of the account model, or none, exactly when it changes no owner. */
  lemma WriteIsPaymentStepExactly(l: L.Ledger, l': L.Ledger, db: Db, db': Db)
    requires Mirrors(db, l) && Writes(db, db', l')
    ensures db' == db || A.PaymentStep(db, db') <==> OwnersKept(l, l')
  {
    if db' != db {
      var i, row :| db' == WithRow(db, i, row) && row.detail.AppleRow? && row.owner in db.users
                    && (i in db.subs ==> db.subs[i].detail.AppleRow? && row.createdAt == db.subs[i].createdAt);
      assert db'.subs[i] == row;
      assert i in l'.subs && l'.subs[i].owner == row.owner;
      if i !in db.subs {
        assert A.CreatesSub(db, db', i, row);
      } else if row.owner == db.subs[i].owner {
        assert A.UpdatesSub(db, db', i, row);
      }
      if A.PaymentStep(db, db') {
        PaymentKeepsOwners(db, db');
      }
    }
  }

  lemma PaymentKeepsOwners(db: Db, db': Db)
    requires A.PaymentStep(db, db')
    ensures forall i :: i in db.subs ==> i in db'.subs && db'.subs[i].owner == db.subs[i].owner
  {
  }

  /** A call of the ledger whose ids agree with the record changes no owner, so its write is a payment step. */
  lemma LedgerStepIsPaymentStep(l: L.Ledger, l': L.Ledger, db: Db, db': Db)
    requires L.Inv(l) && L.Call(l, l', true) && Mirrors(db, l) && Writes(db, db', l')
    ensures db' == db || A.PaymentStep(db, db')
  {
    L.CallKeepsExactly(l, l', true);
    WriteIsPaymentStepExactly(l, l', db, db');
  }

  /** Every call of the ledger, agreeing or not, has such a write, if ids are fresh across the two and owners are users. */
  lemma LedgerStepWrites(l: L.Ledger, l': L.Ledger, agrees: bool, db: Db, createdAt: int) returns (db': Db)
    requires L.Call(l, l', agrees) && Mirrors(db, l)
    requires forall i: A.SubId :: i in l'.subs ==> l'.subs[i].owner in db.users && (i !in l.subs ==> i !in db.subs)
    ensures Writes(db, db', l')
  {
    WritesOneSub(l, l', agrees);
    if l'.subs == l.subs {
      db' := db;
    } else {
      var i: L.RowId :| i in l'.subs && l'.subs == l.subs[i := l'.subs[i]];
      var row := RowOf(l'.subs[i], if i in db.subs then db.subs[i].createdAt else createdAt);
      db' := WithRow(db, i, row);
      MirrorsRow(l, l', db, i, row);
    }
  }

  function RowOf(s: L.Subscription, createdAt: int): A.Subscription<Detail> {
    A.Subscription(s.owner, createdAt, if s.active then A.Active else A.Inactive, s.periodEnd, AppleRow(s.tx, s.original))
  }

  lemma MirrorsRow(l: L.Ledger, l': L.Ledger, db: Db, i: L.RowId, row: A.Subscription<Detail>)
    requires Mirrors(db, l) && i in l'.subs && l'.subs == l.subs[i := l'.subs[i]] && Shows(row, l'.subs[i])
    ensures Mirrors(WithRow(db, i, row), l')
  {
  }

  /** At most one subscription is written. */
  ghost predicate OneWritten(subs: map<L.RowId, L.Subscription>, subs': map<L.RowId, L.Subscription>) {
    subs' == subs || exists i: L.RowId :: i in subs' && subs' == subs[i := subs'[i]]
  }

  lemma CommitWritesOne(l: L.Ledger, l': L.Ledger, result: L.Ledger, committed: bool, i: L.RowId, s: L.Subscription)
    requires L.Commits(l, l', result, committed) && result.subs == l.subs[i := s]
    ensures OneWritten(l.subs, l'.subs)
  {
    if committed {
      assert l'.subs[i] == s;
    }
  }

  lemma UpsertWritesOne(l: L.Ledger, l': L.Ledger, ps: map<L.RowId, L.Purchase>, u: UserId, p: L.Purchase, now: int,
                        g: L.RowId, committed: bool)
    requires L.UpsertsSub(l, l', ps, u, p, now, g, committed)
    ensures OneWritten(l.subs, l'.subs)
  {
    var found: Option<L.RowId> :| L.FindsSub(l.subs, p.tx, p.original, found) &&
      var sub := L.LinkedSub(if found.Some? then Some(l.subs[found.value]) else None, u, p, now);
      L.Commits(l, l', L.Ledger(ps, l.subs[if found.Some? then found.value else g := sub]), committed);
    var sub := L.LinkedSub(if found.Some? then Some(l.subs[found.value]) else None, u, p, now);
    var at := if found.Some? then found.value else g;
    CommitWritesOne(l, l', L.Ledger(ps, l.subs[at := sub]), committed, at, sub);
  }

  lemma LinkWritesOne(l: L.Ledger, l': L.Ledger, u: UserId, tx: L.TxId, original: L.TxId, expires: Option<int>, now: int,
                      f: L.RowId, g: L.RowId, linked: bool)
    requires L.LinkPurchase(l, l', u, tx, original, expires, now, f, g, linked)
    ensures OneWritten(l.subs, l'.subs)
  {
    forall ps, p | L.UpsertsSub(l, l', ps, u, p, now, g, linked)
      ensures OneWritten(l.subs, l'.subs)
    {
      UpsertWritesOne(l, l', ps, u, p, now, g, linked);
    }
  }

  lemma LinkByIdsWritesOne(l: L.Ledger, l': L.Ledger, u: UserId, tx: L.TxId, original: L.TxId, now: int, g: L.RowId,
                           linked: Option<L.Purchase>)
    requires L.LinkByIds(l, l', u, tx, original, now, g, linked)
    ensures OneWritten(l.subs, l'.subs)
  {
    forall ps, p | L.UpsertsSub(l, l', ps, u, p, now, g, linked.Some?)
      ensures OneWritten(l.subs, l'.subs)
    {
      UpsertWritesOne(l, l', ps, u, p, now, g, linked.Some?);
    }
  }

  lemma RenewWritesOne(l: L.Ledger, l': L.Ledger, tx: L.TxId, original: L.TxId, expires: Option<int>, now: int,
                       g: L.RowId, renewed: bool)
    requires L.Renew(l, l', tx, original, expires, now, g, renewed)
    ensures OneWritten(l.subs, l'.subs)
  {
    if l' != l {
      var id: L.RowId, found: Option<L.RowId> :|
        && L.ByOriginal(l.purchases, original, id) && l.purchases[id].linkedUser.Some?
        && L.FindsSub(l.subs, tx, original, found)
        && L.Commits(l, l', l.(subs := l.subs[if found.Some? then found.value else g :=
                                              L.RenewedSub(l, id, found, tx, original, expires, now)]), renewed);
      var at, sub := if found.Some? then found.value else g, L.RenewedSub(l, id, found, tx, original, expires, now);
      CommitWritesOne(l, l', l.(subs := l.subs[at := sub]), renewed, at, sub);
    }
  }

  lemma WritesOneSub(l: L.Ledger, l': L.Ledger, agrees: bool)
    requires L.Call(l, l', agrees)
    ensures OneWritten(l.subs, l'.subs)
  {
    if tx, original, expires, f, captured :| L.Capture(l, l', tx, original, expires, f, captured) {
      assert l'.subs == l.subs;
    } else if u, tx, original, expires, now, f, g, linked :|
      L.LinkPurchase(l, l', u, tx, original, expires, now, f, g, linked)
    {
      LinkWritesOne(l, l', u, tx, original, expires, now, f, g, linked);
    } else if u, tx, original, now, g, linked :| L.LinkByIds(l, l', u, tx, original, now, g, linked) {
      LinkByIdsWritesOne(l, l', u, tx, original, now, g, linked);
    } else if tx, original, expires, now, g, renewed :| L.Renew(l, l', tx, original, expires, now, g, renewed) {
      RenewWritesOne(l, l', tx, original, expires, now, g, renewed);
    } else {
      var original :| L.Refund(l, l', original);
      RefundWritesOne(l, l', original);
    }
  }

  lemma RefundWritesOne(l: L.Ledger, l': L.Ledger, original: L.TxId)
    requires L.Refund(l, l', original)
    ensures OneWritten(l.subs, l'.subs)
  {
    if l' != l {
      var id: L.RowId :| L.SubByOriginal(l.subs, original, id) &&
        l' == l.(subs := l.subs[id := l.subs[id].(active := false)]);
      assert id in l'.subs && l'.subs == l.subs[id := l'.subs[id]];
    }
  }

  // ---------- Access through Apple subscriptions ----------

  lemma InactiveGivesNothing(db: Db, l: L.Ledger, i: A.SubId)
    requires Mirrors(db, l) && i in l.subs && !l.subs[i].active
    ensures i in db.subs && db.subs[i].detail == AppleRow(l.subs[i].tx, l.subs[i].original)
    ensures forall v, t :: !A.Owns(db, v, t, i) && !A.MappedTo(db, v, t, i)
  {
    assert Shows(db.subs[i], l.subs[i]);
    assert db.subs[i].status != A.Active && db.subs[i].status != A.Trialing;
  }

  /** After a link of a purchase that ends at e, after now, its user has access up to and including e. After one of a purchase
      that has ended, or has no end, the subscription gives access to nobody. The end is the verified one, or else the one
      on record. */
  lemma LinkAndAccess(l: L.Ledger, l': L.Ledger, u: UserId, tx: L.TxId, original: L.TxId, expires: Option<int>, now: int,
                      f: L.RowId, g: L.RowId, db: Db, db': Db) returns (at: L.RowId, i: A.SubId)
    requires L.Fresh(l, f, g) && L.LinkPurchase(l, l', u, tx, original, expires, now, f, g, true) && Writes(db, db', l')
    ensures i in db'.subs && db'.subs[i].detail == AppleRow(tx, original)
    ensures at in l'.purchases && l'.purchases[at].tx == tx && (expires.Some? ==> l'.purchases[at].expires == expires)
    ensures expires.None? && at in l.purchases ==> l'.purchases[at].expires == l.purchases[at].expires
    ensures var end := l'.purchases[at].expires;
            && (end.Some? && end.value > now ==> forall t :: t <= end.value ==> A.Entitled(db', u, t))
            && (!(end.Some? && end.value > now) ==> forall v, t :: !A.Owns(db', v, t, i) && !A.MappedTo(db', v, t, i))
  {
    at, i := L.LinkWrites(l, l', u, tx, original, expires, now, f, g);
    LinkedSubAndAccess(l, l', u, l'.purchases[at], now, db', i);
  }

  /** The same for an entry of a bulk link, by the end of the ledger's purchase. */
  lemma BulkLinkAndAccess(l: L.Ledger, l': L.Ledger, u: UserId, tx: L.TxId, original: L.TxId, now: int, g: L.RowId,
                          linked: L.Purchase, db: Db, db': Db) returns (i: A.SubId)
    requires g !in l.subs && L.LinkByIds(l, l', u, tx, original, now, g, Some(linked)) && Writes(db, db', l')
    ensures i in db'.subs && db'.subs[i].detail == AppleRow(linked.tx, linked.original)
    ensures linked.expires.Some? && linked.expires.value > now ==>
              forall t :: t <= linked.expires.value ==> A.Entitled(db', u, t)
    ensures !(linked.expires.Some? && linked.expires.value > now) ==>
              forall v, t :: !A.Owns(db', v, t, i) && !A.MappedTo(db', v, t, i)
  {
    var at;
    at, i := L.LinkByIdsWrites(l, l', u, tx, original, now, g, linked);
    LinkedSubAndAccess(l, l', u, linked, now, db', i);
  }

  lemma LinkedSubAndAccess(l: L.Ledger, l': L.Ledger, u: UserId, p: L.Purchase, now: int, db': Db, i: A.SubId)
    requires L.IsLinkedSub(l, l', i, u, p, now) && Mirrors(db', l')
    ensures i in db'.subs && db'.subs[i].detail == AppleRow(p.tx, p.original)
    ensures p.expires.Some? && p.expires.value > now ==> forall t :: t <= p.expires.value ==> A.Entitled(db', u, t)
    ensures !(p.expires.Some? && p.expires.value > now) ==>
              forall v, t :: !A.Owns(db', v, t, i) && !A.MappedTo(db', v, t, i)
  {
    assert Shows(db'.subs[i], l'.subs[i]);
    if l'.subs[i].active {
      forall t | t <= p.expires.value
        ensures A.Entitled(db', u, t)
      {
        A.EntitledExactly(db', u, t);
      }
    } else {
      InactiveGivesNothing(db', l', i);
    }
  }

  /** A renewal to an end e after now gives its owner access up to and including e; one to an end that is past, or without an
      end, leaves a subscription that gives access to nobody. */
  lemma RenewalAndAccess(l: L.Ledger, l': L.Ledger, tx: L.TxId, original: L.TxId, expires: Option<int>, now: int,
                         g: L.RowId, db: Db, db': Db) returns (i: A.SubId)
    requires g !in l.subs && L.Renew(l, l', tx, original, expires, now, g, true) && Writes(db, db', l')
    ensures i in db'.subs && db'.subs[i].detail.AppleRow? && db'.subs[i].detail.tx == tx
    ensures expires.Some? && expires.value > now ==>
              forall t :: t <= expires.value ==> A.Entitled(db', db'.subs[i].owner, t)
    ensures !(expires.Some? && expires.value > now) ==>
              forall v, t :: !A.Owns(db', v, t, i) && !A.MappedTo(db', v, t, i)
  {
    i := L.RenewWrites(l, l', tx, original, expires, now, g);
    assert Shows(db'.subs[i], l'.subs[i]);
    if l'.subs[i].active {
      forall t | t <= expires.value
        ensures A.Entitled(db', db'.subs[i].owner, t)
      {
        A.EntitledExactly(db', db'.subs[i].owner, t);
      }
    } else {
      InactiveGivesNothing(db', l', i);
    }
  }

  /** After a refund the subscription gives access to nobody. */
  lemma RefundEndsAccess(l: L.Ledger, l': L.Ledger, original: L.TxId, i: A.SubId, db: Db, db': Db)
    requires L.OneSubPerLineage(l) && L.Refund(l, l', original) && i in l.subs && l.subs[i].original == original
    requires Writes(db, db', l')
    ensures forall v, t :: !A.Owns(db', v, t, i) && !A.MappedTo(db', v, t, i)
  {
    L.RefundWrites(l, l', original, i);
    InactiveGivesNothing(db', l', i);
  }

  // ---------- Every run of both ----------

  datatype System = System(ledger: L.Ledger, db: Db)

  /** A call of the ledger whose ids agree with the record, with its write; or any step of the account model that leaves the
      Apple rows as they are: links, unlinks, sign-ins, mappings, other payment services. */
  ghost predicate Next(s: System, s': System) {
    || (L.Call(s.ledger, s'.ledger, true) && Writes(s.db, s'.db, s'.ledger))
    || (s'.ledger == s.ledger && A.Next(s.db, s'.db) && Mirrors(s'.db, s.ledger))
  }

  ghost predicate Inv(s: System) {
    L.Inv(s.ledger) && A.Inv(s.db) && Mirrors(s.db, s.ledger)
  }

  lemma StepKeepsInv(s: System, s': System)
    requires Inv(s) && Next(s, s')
    ensures Inv(s')
  {
    if L.Call(s.ledger, s'.ledger, true) && Writes(s.db, s'.db, s'.ledger) {
      L.CallKeepsExactly(s.ledger, s'.ledger, true);
      LedgerStepIsPaymentStep(s.ledger, s'.ledger, s.db, s'.db);
      if s'.db != s.db {
        A.PaymentKeepsInv(s.db, s'.db);
      }
    } else {
      A.StepKeepsInv(s.db, s'.db);
    }
  }

  /** u is the user that the subscription's purchase is linked to, or linked to that user. */
  ghost predicate MayUse(s: System, i: L.RowId, u: UserId)
    requires i in s.ledger.subs
  {
    exists p :: p in s.ledger.purchases && s.ledger.purchases[p].original == s.ledger.subs[i].original
                && s.ledger.purchases[p].linkedUser.Some?
                && var o := s.ledger.purchases[p].linkedUser.value; u == o || A.AreLinked(s.db.links, o, u)
  }

  ghost predicate StepAt(run: seq<System>, k: nat)
    requires 0 < k < |run|
  {
    Next(run[k - 1], run[k])
  }

  /** A run from the empty system. */
  ghost predicate IsRun(run: seq<System>) {
    && |run| > 0 && run[0] == System(L.Ledger(map[], map[]), A.Db(map[], {}, map[], map[]))
    && forall k: nat :: 0 < k < |run| ==> StepAt(run, k)
  }

  lemma {:induction false} RunKeepsInv(run: seq<System>, i: nat)
    requires IsRun(run) && i < |run|
    ensures Inv(run[i])
  {
    if i == 0 {
    } else {
      RunKeepsInv(run, i - 1);
      assert StepAt(run, i);
      StepKeepsInv(run[i - 1], run[i]);
    }
  }

  /** In every run of the whole system whose ledger calls agree with the record, whoever is mapped to an Apple subscription,
      or owns it, is the user its purchase is linked to or that user's partner. */
  lemma AppleRuns(run: seq<System>, i: nat)
    requires IsRun(run) && i < |run|
    ensures Inv(run[i])
    ensures forall k :: k in run[i].db.rows && k.sub in run[i].ledger.subs ==> MayUse(run[i], k.sub, k.user)
    ensures forall id :: id in run[i].ledger.subs ==> MayUse(run[i], id, run[i].db.subs[id].owner)
  {
    RunKeepsInv(run, i);
    var s := run[i];
    forall id | id in s.ledger.subs
      ensures MayUse(s, id, s.db.subs[id].owner)
      ensures forall u :: A.Key(id, u) in s.db.rows ==> MayUse(s, id, u)
    {
      OwnersAndPartners(s, id);
    }
    forall k | k in s.db.rows && k.sub in s.ledger.subs
      ensures MayUse(s, k.sub, k.user)
    {
      assert k == A.Key(k.sub, k.user);
    }
  }

  lemma OwnersAndPartners(s: System, id: L.RowId)
    requires Inv(s) && id in s.ledger.subs
    ensures id in s.db.subs && MayUse(s, id, s.db.subs[id].owner)
    ensures forall u :: A.Key(id, u) in s.db.rows ==> MayUse(s, id, u)
  {
    assert L.OwnerIsLinkedUser(s.ledger.purchases, s.ledger.subs[id]);
  }
}
