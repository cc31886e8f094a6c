/**
 Apple purchases and their subscriptions (src/payment/apple/apple.service.ts): capturePurchase, linkPurchase,
 linkWithTransactionIds, the DID_RENEW webhook (processAppleReceipt) and the webhooks that change only the status.
 Receipt verification is a parameter: the ids and dates here are those the service has decided to use, the receipt's or,
 where no receipt is verified, the client's.
 */
module AppleLedger {
  import opened Common

  type TxId = string
  type RowId = nat

  /** A row of apple_iap_purchases. */
  datatype Purchase = Purchase(tx: TxId, original: TxId, expires: Option<int>, linkedUser: Option<UserId>)

  /** An Apple row of subscriptions. */
  datatype Subscription = Subscription(owner: UserId, tx: TxId, original: TxId, active: bool, periodEnd: Option<int>)

  datatype Ledger = Ledger(purchases: map<RowId, Purchase>, subs: map<RowId, Subscription>)

  // ---------- Look-ups ----------

  ghost predicate ByTx(ps: map<RowId, Purchase>, tx: TxId, id: RowId) {
    id in ps && ps[id].tx == tx
  }

  ghost predicate ByOriginal(ps: map<RowId, Purchase>, original: TxId, id: RowId) {
    id in ps && ps[id].original == original
  }

  /** findUnique by `tx`, else by `original`. */
  ghost predicate FirstByTx(ps: map<RowId, Purchase>, tx: TxId, original: TxId, found: Option<RowId>) {
    if exists id :: ByTx(ps, tx, id) then found.Some? && ByTx(ps, tx, found.value)
    else if exists id :: ByOriginal(ps, original, id) then found.Some? && ByOriginal(ps, original, found.value)
    else found.None?
  }

  /** findUnique by `original`, else by `tx`. */
  ghost predicate FirstByOriginal(ps: map<RowId, Purchase>, tx: TxId, original: TxId, found: Option<RowId>) {
    if exists id :: ByOriginal(ps, original, id) then found.Some? && ByOriginal(ps, original, found.value)
    else if exists id :: ByTx(ps, tx, id) then found.Some? && ByTx(ps, tx, found.value)
    else found.None?
  }

  ghost predicate SubByOriginal(ss: map<RowId, Subscription>, original: TxId, id: RowId) {
    id in ss && ss[id].original == original
  }

  ghost predicate SubByTx(ss: map<RowId, Subscription>, tx: TxId, id: RowId) {
    id in ss && ss[id].tx == tx
  }

  /** findFirst by appleOriginalTransactionId, else by appleTransactionId. */
  ghost predicate FindsSub(ss: map<RowId, Subscription>, tx: TxId, original: TxId, found: Option<RowId>) {
    if exists id :: SubByOriginal(ss, original, id) then found.Some? && SubByOriginal(ss, original, found.value)
    else if exists id :: SubByTx(ss, tx, id) then found.Some? && SubByTx(ss, tx, found.value)
    else found.None?
  }

  // ---------- Unique keys ----------

  ghost predicate UniquePurchases(ps: map<RowId, Purchase>) {
    && (forall i, j :: i in ps && j in ps && ps[i].tx == ps[j].tx ==> i == j)
    && (forall i, j :: i in ps && j in ps && ps[i].original == ps[j].original ==> i == j)
  }

  ghost predicate UniqueSubs(ss: map<RowId, Subscription>) {
    forall i, j :: i in ss && j in ss && ss[i].tx == ss[j].tx ==> i == j
  }

  ghost predicate Unique(l: Ledger) {
    UniquePurchases(l.purchases) && UniqueSubs(l.subs)
  }

  /** A transaction that would break a unique key throws and changes nothing. */
  ghost predicate Commits(l: Ledger, l': Ledger, result: Ledger, committed: bool) {
    committed == Unique(result) && l' == if committed then result else l
  }

  // ---------- The operations ----------

  ghost predicate Fresh(l: Ledger, newPurchase: RowId, newSub: RowId) {
    newPurchase !in l.purchases && newSub !in l.subs
  }

  predicate ActiveUntil(expires: Option<int>, now: int) {
    expires.Some? && expires.value > now
  }

  ghost predicate Capture(l: Ledger, l': Ledger, tx: TxId, original: TxId, expires: Option<int>, fresh1: RowId,
                          captured: bool) {
    exists found: Option<RowId> :: FirstByTx(l.purchases, tx, original, found) &&
      var row := match found
                 case Some(id) => l.purchases[id].(tx := tx, original := original, expires := expires)
                 case None => Purchase(tx, original, expires, None);
      Commits(l, l', l.(purchases := l.purchases[if found.Some? then found.value else fresh1 := row]), captured)
  }

  /** The subscription upsert that linkPurchase and linkWithTransactionIds share. */
  function LinkedSub(existing: Option<Subscription>, u: UserId, p: Purchase, now: int): Subscription {
    Subscription(u, p.tx, p.original, ActiveUntil(p.expires, now),
                 if p.expires.Some? || existing.None? then p.expires else existing.value.periodEnd)
  }

  ghost predicate UpsertsSub(l: Ledger, l': Ledger, purchases: map<RowId, Purchase>, u: UserId, p: Purchase, now: int,
                             fresh2: RowId, committed: bool) {
    exists found: Option<RowId> :: FindsSub(l.subs, p.tx, p.original, found) &&
      var sub := LinkedSub(if found.Some? then Some(l.subs[found.value]) else None, u, p, now);
      Commits(l, l', Ledger(purchases, l.subs[if found.Some? then found.value else fresh2 := sub]), committed)
  }

  predicate LinkedToOther(p: Purchase, u: UserId) {
    p.linkedUser.Some? && p.linkedUser.value != u
  }

  ghost predicate LinkPurchase(l: Ledger, l': Ledger, u: UserId, tx: TxId, original: TxId, expires: Option<int>,
                               now: int, fresh1: RowId, fresh2: RowId, linked: bool) {
    exists found: Option<RowId> :: FirstByTx(l.purchases, tx, original, found) &&
      if found.Some? && LinkedToOther(l.purchases[found.value], u) then l' == l && !linked
      else
        var known := if found.Some? then l.purchases[found.value].expires else None;
        var p := Purchase(tx, original, if expires.Some? then expires else known, Some(u));
        UpsertsSub(l, l', l.purchases[if found.Some? then found.value else fresh1 := p], u, p, now, fresh2, linked)
  }

  /** One entry of linkWithTransactionIds, and the purchase it links, if it does. The ids of the ledger row count, not the
      client's. */
  ghost predicate LinkByIds(l: Ledger, l': Ledger, u: UserId, tx: TxId, original: TxId, now: int, fresh2: RowId,
                            linked: Option<Purchase>) {
    exists found: Option<RowId> :: FirstByOriginal(l.purchases, tx, original, found) &&
      if found.None? || LinkedToOther(l.purchases[found.value], u) then l' == l && linked == None
      else
        var p := l.purchases[found.value].(linkedUser := Some(u));
        && UpsertsSub(l, l', l.purchases[found.value := p], u, p, now, fresh2, linked.Some?)
        && (linked.Some? ==> linked.value == p)
  }

  /** A renewal. An update that the source skips as not needed would change nothing that is modelled here. */
  ghost predicate Renew(l: Ledger, l': Ledger, tx: TxId, original: TxId, expires: Option<int>, now: int,
                        fresh2: RowId, renewed: bool) {
    if exists id :: ByOriginal(l.purchases, original, id) && l.purchases[id].linkedUser.Some? then
      exists id: RowId, found: Option<RowId> ::
        && ByOriginal(l.purchases, original, id) && l.purchases[id].linkedUser.Some?
        && FindsSub(l.subs, tx, original, found)
        && Commits(l, l', l.(subs := l.subs[if found.Some? then found.value else fresh2 :=
                                           RenewedSub(l, id, found, tx, original, expires, now)]), renewed)
    else l' == l && !renewed
  }

  function RenewedSub(l: Ledger, id: RowId, found: Option<RowId>, tx: TxId, original: TxId, expires: Option<int>,
                      now: int): Subscription
    requires id in l.purchases && l.purchases[id].linkedUser.Some? && (found.Some? ==> found.value in l.subs)
  {
    match found
    case Some(s) =>
      l.subs[s].(tx := tx, active := ActiveUntil(expires, now),
                 periodEnd := if expires.Some? then expires else l.subs[s].periodEnd)
    case None =>
      Subscription(l.purchases[id].linkedUser.value, tx, original, ActiveUntil(expires, now), expires)
  }

  ghost predicate Refund(l: Ledger, l': Ledger, original: TxId) {
    if exists id :: SubByOriginal(l.subs, original, id) then
      exists id :: SubByOriginal(l.subs, original, id) && l' == l.(subs := l.subs[id := l.subs[id].(active := false)])
    else l' == l
  }

  // ---------- What every operation keeps ----------

  ghost predicate OnePurchasePerLineage(l: Ledger) {
    forall i, j :: i in l.purchases && j in l.purchases && l.purchases[i].original == l.purchases[j].original ==> i == j
  }

  ghost predicate OneSubPerLineage(l: Ledger) {
    forall i, j :: i in l.subs && j in l.subs && l.subs[i].original == l.subs[j].original ==> i == j
  }

  /** Some purchase of the subscription's lineage is linked to its owner. */
  ghost predicate OwnerIsLinkedUser(ps: map<RowId, Purchase>, s: Subscription) {
    exists id :: id in ps && ps[id].original == s.original && ps[id].linkedUser == Some(s.owner)
  }

  /** The owner of a subscription is the linked user of its lineage's purchase. */
  ghost predicate OwnersAreLinkedUsers(l: Ledger) {
    forall i :: i in l.subs ==> OwnerIsLinkedUser(l.purchases, l.subs[i])
  }

  ghost predicate Inv(l: Ledger) {
    Unique(l) && OneSubPerLineage(l) && OwnersAreLinkedUsers(l)
  }

  /** Rows stay, in their lineage; a linked user is written once and a subscription's owner never changes. */
  ghost predicate Keeps(l: Ledger, l': Ledger) {
    && (forall i :: i in l.purchases ==>
          && i in l'.purchases && l'.purchases[i].original == l.purchases[i].original
          && (l.purchases[i].linkedUser.Some? ==> l'.purchases[i].linkedUser == l.purchases[i].linkedUser))
    && (forall i :: i in l.subs ==>
          i in l'.subs && l'.subs[i].original == l.subs[i].original && l'.subs[i].owner == l.subs[i].owner)
  }

  /** No purchase on record has the transaction under another original. */
  ghost predicate PurchasesAgree(l: Ledger, tx: TxId, original: TxId) {
    forall i :: i in l.purchases && l.purchases[i].tx == tx ==> l.purchases[i].original == original
  }

  /** No subscription on record has the transaction under another original. */
  ghost predicate SubsAgree(l: Ledger, tx: TxId, original: TxId) {
    forall i :: i in l.subs && l.subs[i].tx == tx ==> l.subs[i].original == original
  }

  ghost predicate Agrees(l: Ledger, tx: TxId, original: TxId) {
    PurchasesAgree(l, tx, original) && SubsAgree(l, tx, original)
  }

  lemma KeepsItself(l: Ledger)
    ensures Keeps(l, l)
  {
  }

  lemma KeepsTransitive(a: Ledger, b: Ledger, c: Ledger)
    requires Keeps(a, b) && Keeps(b, c)
    ensures Keeps(a, c)
  {
  }

  /** Writing one purchase row, in place or new, in its own lineage. */
  lemma WritePurchase(l: Ledger, at: RowId, p: Purchase)
    requires Inv(l) && Unique(l.(purchases := l.purchases[at := p]))
    requires at in l.purchases ==>
               && l.purchases[at].original == p.original
               && (l.purchases[at].linkedUser.Some? ==> p.linkedUser == l.purchases[at].linkedUser)
    ensures var l' := l.(purchases := l.purchases[at := p]); Inv(l') && Keeps(l, l')
  {
    var l' := l.(purchases := l.purchases[at := p]);
    forall i | i in l.subs
      ensures OwnerIsLinkedUser(l'.purchases, l.subs[i])
    {
      var s := l.subs[i];
      assert OwnerIsLinkedUser(l.purchases, s);
      var id :| id in l.purchases && l.purchases[id].original == s.original && l.purchases[id].linkedUser == Some(s.owner);
      assert l'.purchases[id].original == s.original;
    }
  }

  /** Writing one subscription row, in place or new, in its own lineage and for its purchase's linked user. */
  lemma WriteSub(l: Ledger, at: RowId, s: Subscription)
    requires Inv(l) && Unique(l.(subs := l.subs[at := s])) && OwnerIsLinkedUser(l.purchases, s)
    requires at in l.subs ==> l.subs[at].original == s.original && l.subs[at].owner == s.owner
    requires at !in l.subs ==> forall i :: i in l.subs ==> l.subs[i].original != s.original
    ensures var l' := l.(subs := l.subs[at := s]); Inv(l') && Keeps(l, l')
  {
  }

  lemma LinkedUserOwns(l: Ledger, at: RowId, i: RowId)
    requires Inv(l) && at in l.purchases && i in l.subs && l.subs[i].original == l.purchases[at].original
    ensures l.purchases[at].linkedUser == Some(l.subs[i].owner)
  {
    assert OwnerIsLinkedUser(l.purchases, l.subs[i]);
  }

  // ---------- Captures ----------

  /** A capture keeps the ledger exactly when it is refused, or its transaction is not on record under another original. */
  lemma CaptureKeepsExactly(l: Ledger, l': Ledger, tx: TxId, original: TxId, expires: Option<int>, f: RowId,
                            captured: bool)
    requires Inv(l) && f !in l.purchases && Capture(l, l', tx, original, expires, f, captured)
    ensures Keeps(l, l') <==> !captured || PurchasesAgree(l, tx, original)
    ensures Keeps(l, l') ==> Inv(l')
  {
    var found: Option<RowId> :| FirstByTx(l.purchases, tx, original, found) &&
      var row := match found
                 case Some(id) => l.purchases[id].(tx := tx, original := original, expires := expires)
                 case None => Purchase(tx, original, expires, None);
      Commits(l, l', l.(purchases := l.purchases[if found.Some? then found.value else f := row]), captured);
    var at := if found.Some? then found.value else f;
    if captured {
      AgreesAtFound(l, tx, original, found);
      if found.Some? && l.purchases[at].original != original {
        assert l'.purchases[at].original == original;
      } else {
        WritePurchase(l, at, l'.purchases[at]);
      }
    } else {
      KeepsItself(l);
    }
  }

  /** The purchases agree exactly if the one that is found does. */
  lemma AgreesAtFound(l: Ledger, tx: TxId, original: TxId, found: Option<RowId>)
    requires Unique(l) && FirstByTx(l.purchases, tx, original, found)
    ensures PurchasesAgree(l, tx, original) <==> (found.Some? ==> l.purchases[found.value].original == original)
    ensures PurchasesAgree(l, tx, original) && found.None? ==>
              forall i :: i in l.purchases ==> l.purchases[i].original != original
  {
    forall i | i in l.purchases && l.purchases[i].tx == tx
      ensures found == Some(i)
    {
      assert ByTx(l.purchases, tx, i);
    }
    forall i | i in l.purchases && l.purchases[i].original == original
      ensures found.Some?
    {
      assert ByOriginal(l.purchases, original, i);
    }
  }

  // ---------- Links ----------

  /** What the two transactions that link a purchase share. `at` is where the purchase p goes: the row of its lineage, free
      or already u's, or a new one for a lineage without a row. */
  ghost predicate MayTake(l: Ledger, u: UserId, at: RowId, p: Purchase) {
    && p.linkedUser == Some(u)
    && (at in l.purchases ==> l.purchases[at].original == p.original && !LinkedToOther(l.purchases[at], u))
    && (at !in l.purchases ==> forall i :: i in l.purchases ==> l.purchases[i].original != p.original)
  }

  lemma UpsertKeepsExactly(l: Ledger, l': Ledger, u: UserId, at: RowId, p: Purchase, now: int, g: RowId, committed: bool)
    requires Inv(l) && g !in l.subs && MayTake(l, u, at, p)
    requires UpsertsSub(l, l', l.purchases[at := p], u, p, now, g, committed)
    ensures Keeps(l, l') <==> !committed || SubsAgree(l, p.tx, p.original)
    ensures Keeps(l, l') ==> Inv(l')
  {
    var found: Option<RowId> :| FindsSub(l.subs, p.tx, p.original, found) &&
      var sub := LinkedSub(if found.Some? then Some(l.subs[found.value]) else None, u, p, now);
      Commits(l, l', Ledger(l.purchases[at := p], l.subs[if found.Some? then found.value else g := sub]), committed);
    var sub := LinkedSub(if found.Some? then Some(l.subs[found.value]) else None, u, p, now);
    var to := if found.Some? then found.value else g;
    if !committed {
      KeepsItself(l);
    } else {
      WriteKeepsExactly(l, u, at, p, to, sub, found);
    }
  }

  lemma WriteKeepsExactly(l: Ledger, u: UserId, at: RowId, p: Purchase, to: RowId, sub: Subscription, found: Option<RowId>)
    requires Inv(l) && MayTake(l, u, at, p) && Unique(Ledger(l.purchases[at := p], l.subs[to := sub]))
    requires sub.owner == u && sub.tx == p.tx && sub.original == p.original
    requires FindsSub(l.subs, p.tx, p.original, found) && (if found.Some? then found.value == to else to !in l.subs)
    ensures var r := Ledger(l.purchases[at := p], l.subs[to := sub]);
            (Keeps(l, r) <==> SubsAgree(l, p.tx, p.original)) && (Keeps(l, r) ==> Inv(r))
  {
    SubsAgreeAtFound(l, l.subs[to := sub], p.tx, p.original, to, found);
    if !(found.Some? && l.subs[to].original != p.original) {
      WriteBoth(l, u, at, p, to, sub);
    }
  }

  /** The subscriptions agree exactly if the one that is found, and written with the ids, does. */
  lemma SubsAgreeAtFound(l: Ledger, subs': map<RowId, Subscription>, tx: TxId, original: TxId, to: RowId,
                         found: Option<RowId>)
    requires FindsSub(l.subs, tx, original, found) && (found.Some? ==> found.value == to)
    requires to in subs' && subs' == l.subs[to := subs'[to]] && subs'[to].tx == tx
    requires forall i, j :: i in subs' && j in subs' && subs'[i].tx == subs'[j].tx ==> i == j
    ensures SubsAgree(l, tx, original) <==> (found.Some? ==> l.subs[to].original == original)
    ensures found.None? ==> forall i :: i in l.subs ==> l.subs[i].original != original
  {
    forall i | i in l.subs && (l.subs[i].tx == tx || l.subs[i].original == original)
      ensures found.Some? && (l.subs[i].tx == tx ==> i == to)
    {
      assert SubByTx(l.subs, tx, i) || SubByOriginal(l.subs, original, i);
      assert i != to ==> subs'[i] == l.subs[i];
    }
    if found.Some? && l.subs[to].original != original {
      assert SubByTx(l.subs, tx, to);
    }
  }

  lemma WriteBoth(l: Ledger, u: UserId, at: RowId, p: Purchase, to: RowId, sub: Subscription)
    requires Inv(l) && MayTake(l, u, at, p) && Unique(Ledger(l.purchases[at := p], l.subs[to := sub]))
    requires sub.owner == u && sub.original == p.original
    requires to in l.subs ==> l.subs[to].original == p.original
    requires to !in l.subs ==> forall i :: i in l.subs ==> l.subs[i].original != p.original
    ensures var r := Ledger(l.purchases[at := p], l.subs[to := sub]); Inv(r) && Keeps(l, r)
  {
    var mid := l.(purchases := l.purchases[at := p]);
    WritePurchase(l, at, p);
    if to in l.subs {
      LinkedUserOwns(mid, at, to);
    }
    assert OwnerIsLinkedUser(mid.purchases, sub) by {
      assert mid.purchases[at].original == sub.original;
    }
    WriteSub(mid, to, sub);
    KeepsTransitive(l, mid, mid.(subs := l.subs[to := sub]));
  }

  /** A link keeps the ledger exactly when it is refused, or its transaction is not on record under another original. */
  lemma LinkKeepsExactly(l: Ledger, l': Ledger, u: UserId, tx: TxId, original: TxId, expires: Option<int>, now: int,
                         f: RowId, g: RowId, linked: bool)
    requires Inv(l) && Fresh(l, f, g) && LinkPurchase(l, l', u, tx, original, expires, now, f, g, linked)
    ensures Keeps(l, l') <==> !linked || Agrees(l, tx, original)
    ensures Keeps(l, l') ==> Inv(l')
  {
    var found: Option<RowId> :| FirstByTx(l.purchases, tx, original, found) &&
      if found.Some? && LinkedToOther(l.purchases[found.value], u) then l' == l && !linked
      else
        var known := if found.Some? then l.purchases[found.value].expires else None;
        var p := Purchase(tx, original, if expires.Some? then expires else known, Some(u));
        UpsertsSub(l, l', l.purchases[if found.Some? then found.value else f := p], u, p, now, g, linked);
    AgreesAtFound(l, tx, original, found);
    if found.Some? && LinkedToOther(l.purchases[found.value], u) {
      KeepsItself(l);
    } else {
      var known := if found.Some? then l.purchases[found.value].expires else None;
      var p := Purchase(tx, original, if expires.Some? then expires else known, Some(u));
      var at := if found.Some? then found.value else f;
      if PurchasesAgree(l, tx, original) {
        UpsertKeepsExactly(l, l', u, at, p, now, g, linked);
      } else {
        UpsertMovesPurchase(l, l', u, at, p, now, g, linked);
      }
    }
  }

  lemma UpsertMovesPurchase(l: Ledger, l': Ledger, u: UserId, at: RowId, p: Purchase, now: int, g: RowId, committed: bool)
    requires at in l.purchases && l.purchases[at].original != p.original
    requires UpsertsSub(l, l', l.purchases[at := p], u, p, now, g, committed)
    ensures committed ==> !Keeps(l, l')
    ensures !committed ==> l' == l && Keeps(l, l')
  {
    if committed {
      assert l'.purchases[at] == p;
    } else {
      KeepsItself(l);
    }
  }

  /** An entry of a bulk link keeps the ledger exactly when it links nothing, or the transaction of the row that it links
      is not on record with a subscription under another original. */
  lemma LinkByIdsKeepsExactly(l: Ledger, l': Ledger, u: UserId, tx: TxId, original: TxId, now: int, g: RowId,
                              linked: Option<Purchase>)
    requires Inv(l) && g !in l.subs && LinkByIds(l, l', u, tx, original, now, g, linked)
    ensures Keeps(l, l') <==> linked.None? || SubsAgree(l, linked.value.tx, linked.value.original)
    ensures Keeps(l, l') ==> Inv(l')
  {
    var found: Option<RowId> :| FirstByOriginal(l.purchases, tx, original, found) &&
      if found.None? || LinkedToOther(l.purchases[found.value], u) then l' == l && linked == None
      else
        var p := l.purchases[found.value].(linkedUser := Some(u));
        && UpsertsSub(l, l', l.purchases[found.value := p], u, p, now, g, linked.Some?)
        && (linked.Some? ==> linked.value == p);
    if found.None? || LinkedToOther(l.purchases[found.value], u) {
      KeepsItself(l);
    } else {
      UpsertKeepsExactly(l, l', u, found.value, l.purchases[found.value].(linkedUser := Some(u)), now, g, linked.Some?);
    }
  }

  // ---------- Renewals and refunds ----------

  /** A renewal always keeps the ledger: it leaves the original and the owner of the row it finds. */
  lemma RenewKeeps(l: Ledger, l': Ledger, tx: TxId, original: TxId, expires: Option<int>, now: int, g: RowId,
                   renewed: bool)
    requires Inv(l) && g !in l.subs && Renew(l, l', tx, original, expires, now, g, renewed)
    ensures Inv(l') && Keeps(l, l')
  {
    if renewed {
      var id: RowId, found: Option<RowId> :|
        && ByOriginal(l.purchases, original, id) && l.purchases[id].linkedUser.Some?
        && FindsSub(l.subs, tx, original, found)
        && Commits(l, l', l.(subs := l.subs[if found.Some? then found.value else g :=
                                            RenewedSub(l, id, found, tx, original, expires, now)]), renewed);
      var s := RenewedSub(l, id, found, tx, original, expires, now);
      assert OwnerIsLinkedUser(l.purchases, s) by {
        assert found.Some? ==> OwnerIsLinkedUser(l.purchases, l.subs[found.value]);
        assert found.None? ==> l.purchases[id].original == s.original;
      }
      if found.None? {
        forall i | i in l.subs
          ensures l.subs[i].original != original
        {
          assert !SubByOriginal(l.subs, original, i);
        }
      }
      WriteSub(l, if found.Some? then found.value else g, s);
    } else {
      KeepsItself(l);
    }
  }

  lemma RefundKeeps(l: Ledger, l': Ledger, original: TxId)
    requires Inv(l) && Refund(l, l', original)
    ensures Inv(l') && Keeps(l, l')
  {
    if l' == l {
      KeepsItself(l);
    } else {
      var id :| SubByOriginal(l.subs, original, id) && l' == l.(subs := l.subs[id := l.subs[id].(active := false)]);
      assert OwnerIsLinkedUser(l.purchases, l.subs[id]);
      WriteSub(l, id, l.subs[id].(active := false));
    }
  }

  // ---------- Every run ----------

  /** Any call, with any ids: captures and links take the client's where no receipt is verified. `agrees` says that it
      commits nothing whose transaction is on record under another original. */
  ghost predicate Call(l: Ledger, l': Ledger, agrees: bool) {
    || (exists tx, original, expires, f, captured ::
          && f !in l.purchases && Capture(l, l', tx, original, expires, f, captured)
          && agrees == (!captured || PurchasesAgree(l, tx, original)))
    || (exists u, tx, original, expires, now, f, g, linked ::
          && Fresh(l, f, g) && LinkPurchase(l, l', u, tx, original, expires, now, f, g, linked)
          && agrees == (!linked || Agrees(l, tx, original)))
    || (exists u, tx, original, now, g, linked ::
          && g !in l.subs && LinkByIds(l, l', u, tx, original, now, g, linked)
          && agrees == (linked.None? || SubsAgree(l, linked.value.tx, linked.value.original)))
    || (exists tx, original, expires, now, g, renewed ::
          agrees && g !in l.subs && Renew(l, l', tx, original, expires, now, g, renewed))
    || (exists original :: agrees && Refund(l, l', original))
  }

  /** A call keeps rows, lineages and owners exactly when its ids agree with the record, and then the invariant too. */
  lemma CallKeepsExactly(l: Ledger, l': Ledger, agrees: bool)
    requires Inv(l) && Call(l, l', agrees)
    ensures Keeps(l, l') <==> agrees
    ensures agrees ==> Inv(l')
  {
    if tx, original, expires, f, captured :|
      && f !in l.purchases && Capture(l, l', tx, original, expires, f, captured)
      && agrees == (!captured || PurchasesAgree(l, tx, original))
    {
      CaptureKeepsExactly(l, l', tx, original, expires, f, captured);
    } else if u, tx, original, expires, now, f, g, linked :|
      && Fresh(l, f, g) && LinkPurchase(l, l', u, tx, original, expires, now, f, g, linked)
      && agrees == (!linked || Agrees(l, tx, original))
    {
      LinkKeepsExactly(l, l', u, tx, original, expires, now, f, g, linked);
    } else if u, tx, original, now, g, linked :|
      && g !in l.subs && LinkByIds(l, l', u, tx, original, now, g, linked)
      && agrees == (linked.None? || SubsAgree(l, linked.value.tx, linked.value.original))
    {
      LinkByIdsKeepsExactly(l, l', u, tx, original, now, g, linked);
    } else if tx, original, expires, now, g, renewed :|
      g !in l.subs && Renew(l, l', tx, original, expires, now, g, renewed)
    {
      RenewKeeps(l, l', tx, original, expires, now, g, renewed);
    } else {
      var original :| Refund(l, l', original);
      RefundKeeps(l, l', original);
    }
  }

  ghost predicate AgreesAt(run: seq<Ledger>, k: nat)
    requires 0 < k < |run|
  {
    Call(run[k - 1], run[k], true)
  }

  /** A run from the empty ledger whose calls agree with the record. */
  ghost predicate IsRun(run: seq<Ledger>) {
    |run| > 0 && run[0] == Ledger(map[], map[]) && forall k: nat :: 0 < k < |run| ==> AgreesAt(run, k)
  }

  lemma {:induction false} RunKeepsInv(run: seq<Ledger>, i: nat)
    requires IsRun(run) && i < |run|
    ensures Inv(run[i])
  {
    if i == 0 {
    } else {
      RunKeepsInv(run, i - 1);
      assert AgreesAt(run, i);
      CallKeepsExactly(run[i - 1], run[i], true);
    }
  }

  /** Every serial run from an empty ledger whose calls agree with the record: one purchase and one subscription per
      lineage, owned by the purchase's linked user; linked users and owners are written once. */
  lemma {:induction false} LedgerRuns(run: seq<Ledger>, i: nat, j: nat)
    requires IsRun(run) && i <= j < |run|
    ensures Inv(run[j])
    ensures OnePurchasePerLineage(run[j]) && OneSubPerLineage(run[j]) && OwnersAreLinkedUsers(run[j])
    ensures Keeps(run[i], run[j])
    decreases j
  {
    RunKeepsInv(run, j);
    if i == j {
      KeepsItself(run[i]);
    } else {
      LedgerRuns(run, i, j - 1);
      RunKeepsInv(run, j - 1);
      assert AgreesAt(run, j);
      CallKeepsExactly(run[j - 1], run[j], true);
      KeepsTransitive(run[i], run[j - 1], run[j]);
    }
  }

  // ---------- One fixed original per transaction ----------

  /** Any call whose ids follow a fixed assignment of originals to transactions, as all ids that come from Apple do. */
  ghost predicate LineageCall(l: Ledger, l': Ledger, lineage: TxId -> TxId) {
    || (exists tx, expires, f, captured :: f !in l.purchases && Capture(l, l', tx, lineage(tx), expires, f, captured))
    || (exists u, tx, expires, now, f, g, linked ::
          Fresh(l, f, g) && LinkPurchase(l, l', u, tx, lineage(tx), expires, now, f, g, linked))
    || (exists u, tx, original, now, g, linked ::
          g !in l.subs && LinkByIds(l, l', u, tx, original, now, g, linked))
    || (exists tx, expires, now, g, renewed ::
          g !in l.subs && Renew(l, l', tx, lineage(tx), expires, now, g, renewed))
    || (exists original :: Refund(l, l', original))
  }

  ghost predicate FollowsLineage(l: Ledger, lineage: TxId -> TxId) {
    && (forall i :: i in l.purchases ==> l.purchases[i].original == lineage(l.purchases[i].tx))
    && (forall i :: i in l.subs ==> l.subs[i].original == lineage(l.subs[i].tx))
  }

  /** Such a call agrees with a record that follows the assignment, and leaves one that does. */
  lemma LineageCallAgrees(l: Ledger, l': Ledger, lineage: TxId -> TxId)
    requires FollowsLineage(l, lineage) && LineageCall(l, l', lineage)
    ensures Call(l, l', true) && FollowsLineage(l', lineage)
  {
    if tx, expires, f, captured :| f !in l.purchases && Capture(l, l', tx, lineage(tx), expires, f, captured) {
      assert PurchasesAgree(l, tx, lineage(tx));
      CaptureFollows(l, l', lineage, tx, expires, f, captured);
    } else if u, tx, expires, now, f, g, linked :|
      Fresh(l, f, g) && LinkPurchase(l, l', u, tx, lineage(tx), expires, now, f, g, linked)
    {
      assert Agrees(l, tx, lineage(tx));
      LinkFollows(l, l', lineage, u, tx, expires, now, f, g, linked);
    } else if u, tx, original, now, g, linked :| g !in l.subs && LinkByIds(l, l', u, tx, original, now, g, linked) {
      LinkByIdsFollows(l, l', lineage, u, tx, original, now, g, linked);
    } else if tx, expires, now, g, renewed :| g !in l.subs && Renew(l, l', tx, lineage(tx), expires, now, g, renewed) {
      RenewFollows(l, l', lineage, tx, expires, now, g, renewed);
    } else {
      var original :| Refund(l, l', original);
    }
  }

  lemma CaptureFollows(l: Ledger, l': Ledger, lineage: TxId -> TxId, tx: TxId, expires: Option<int>, f: RowId,
                       captured: bool)
    requires FollowsLineage(l, lineage) && Capture(l, l', tx, lineage(tx), expires, f, captured)
    ensures FollowsLineage(l', lineage)
  {
  }

  lemma UpsertFollows(l: Ledger, l': Ledger, lineage: TxId -> TxId, u: UserId, at: RowId, p: Purchase, now: int, g: RowId,
                      committed: bool)
    requires FollowsLineage(l, lineage) && p.original == lineage(p.tx)
    requires UpsertsSub(l, l', l.purchases[at := p], u, p, now, g, committed)
    ensures FollowsLineage(l', lineage)
  {
  }

  lemma LinkFollows(l: Ledger, l': Ledger, lineage: TxId -> TxId, u: UserId, tx: TxId, expires: Option<int>, now: int,
                    f: RowId, g: RowId, linked: bool)
    requires FollowsLineage(l, lineage) && LinkPurchase(l, l', u, tx, lineage(tx), expires, now, f, g, linked)
    ensures FollowsLineage(l', lineage)
  {
    var found: Option<RowId> :| FirstByTx(l.purchases, tx, lineage(tx), found) &&
      if found.Some? && LinkedToOther(l.purchases[found.value], u) then l' == l && !linked
      else
        var known := if found.Some? then l.purchases[found.value].expires else None;
        var p := Purchase(tx, lineage(tx), if expires.Some? then expires else known, Some(u));
        UpsertsSub(l, l', l.purchases[if found.Some? then found.value else f := p], u, p, now, g, linked);
    if l' != l {
      var known := if found.Some? then l.purchases[found.value].expires else None;
      var p := Purchase(tx, lineage(tx), if expires.Some? then expires else known, Some(u));
      UpsertFollows(l, l', lineage, u, if found.Some? then found.value else f, p, now, g, linked);
    }
  }

  lemma LinkByIdsFollows(l: Ledger, l': Ledger, lineage: TxId -> TxId, u: UserId, tx: TxId, original: TxId, now: int,
                         g: RowId, linked: Option<Purchase>)
    requires FollowsLineage(l, lineage) && g !in l.subs && LinkByIds(l, l', u, tx, original, now, g, linked)
    ensures Call(l, l', true) && FollowsLineage(l', lineage)
  {
    forall at | at in l.purchases
                && var p := l.purchases[at].(linkedUser := Some(u));
                   UpsertsSub(l, l', l.purchases[at := p], u, p, now, g, linked.Some?)
      ensures FollowsLineage(l', lineage)
    {
      UpsertFollows(l, l', lineage, u, at, l.purchases[at].(linkedUser := Some(u)), now, g, linked.Some?);
    }
    assert linked.Some? ==> SubsAgree(l, linked.value.tx, linked.value.original);
  }

  lemma RenewFollows(l: Ledger, l': Ledger, lineage: TxId -> TxId, tx: TxId, expires: Option<int>, now: int, g: RowId,
                     renewed: bool)
    requires FollowsLineage(l, lineage) && Renew(l, l', tx, lineage(tx), expires, now, g, renewed)
    ensures FollowsLineage(l', lineage)
  {
  }

  ghost predicate FollowsAt(run: seq<Ledger>, k: nat, lineage: TxId -> TxId)
    requires 0 < k < |run|
  {
    LineageCall(run[k - 1], run[k], lineage)
  }

  lemma {:induction false} LineageRunFollows(run: seq<Ledger>, lineage: TxId -> TxId, i: nat)
    requires i < |run| && run[0] == Ledger(map[], map[])
    requires forall k: nat :: 0 < k < |run| ==> FollowsAt(run, k, lineage)
    ensures FollowsLineage(run[i], lineage)
  {
    if i == 0 {
    } else {
      LineageRunFollows(run, lineage, i - 1);
      assert FollowsAt(run, i, lineage);
      LineageCallAgrees(run[i - 1], run[i], lineage);
    }
  }

  /** Hence every run of such calls agrees with the record, whatever the ids of the bulk links. */
  lemma LineageRunsAgree(run: seq<Ledger>, lineage: TxId -> TxId)
    requires |run| > 0 && run[0] == Ledger(map[], map[])
    requires forall k: nat :: 0 < k < |run| ==> FollowsAt(run, k, lineage)
    ensures IsRun(run)
  {
    forall k: nat | 0 < k < |run|
      ensures AgreesAt(run, k)
    {
      LineageRunFollows(run, lineage, k - 1);
      assert FollowsAt(run, k, lineage);
      LineageCallAgrees(run[k - 1], run[k], lineage);
    }
  }

  // ---------- Where the guarantee ends ----------

  /** What one call that does not agree can lead to: a capture with another original moves u1's linked purchase to another
      lineage, and u2, with a transaction not on record, links the one it has left and takes over u1's subscription. */
  lemma OwnerIsReplaced(t1: TxId, t2: TxId, o1: TxId, o2: TxId, u1: UserId, u2: UserId)
    returns (l1: Ledger, l2: Ledger, l3: Ledger, l4: Ledger)
    requires t1 != t2 && o1 != o2 && u1 != u2
    ensures var l0 := Ledger(map[], map[]); Capture(l0, l1, t1, o1, None, 0, true) && Agrees(l0, t1, o1)
    ensures LinkPurchase(l1, l2, u1, t1, o1, None, 0, 1, 0, true) && Agrees(l1, t1, o1)
    ensures Capture(l2, l3, t1, o2, None, 1, true) && !PurchasesAgree(l2, t1, o2)
    ensures LinkPurchase(l3, l4, u2, t2, o1, None, 0, 1, 1, true) && Agrees(l3, t2, o1)
    ensures 0 in l2.subs && 0 in l4.subs && l2.subs[0].owner == u1 && l4.subs[0].owner == u2
  {
    l1 := FirstCapture(t1, o1);
    l2 := FirstLink(l1, u1, t1, o1);
    l3 := MovesAway(l2, t1, o1, o2, u1);
    l4 := TakesOver(l3, t1, o2, t2, o1, u2);
  }

  lemma FirstCapture(tx: TxId, original: TxId) returns (l': Ledger)
    ensures l' == Ledger(map[0 := Purchase(tx, original, None, None)], map[])
    ensures var l := Ledger(map[], map[]); Capture(l, l', tx, original, None, 0, true) && Agrees(l, tx, original)
  {
    var l := Ledger(map[], map[]);
    l' := Ledger(map[0 := Purchase(tx, original, None, None)], map[]);
    assert FirstByTx(l.purchases, tx, original, None);
    assert l.purchases[0 := Purchase(tx, original, None, None)] == l'.purchases;
  }

  lemma FirstLink(l: Ledger, u: UserId, tx: TxId, original: TxId) returns (l': Ledger)
    requires l == Ledger(map[0 := Purchase(tx, original, None, None)], map[])
    ensures LinkPurchase(l, l', u, tx, original, None, 0, 1, 0, true) && Agrees(l, tx, original)
    ensures l' == Ledger(map[0 := Purchase(tx, original, None, Some(u))],
                         map[0 := Subscription(u, tx, original, false, None)])
  {
    var p, s := Purchase(tx, original, None, Some(u)), Subscription(u, tx, original, false, None);
    l' := Ledger(map[0 := p], map[0 := s]);
    assert ByTx(l.purchases, tx, 0) && FirstByTx(l.purchases, tx, original, Some(0));
    assert FindsSub(l.subs, tx, original, None);
    assert l.purchases[0 := p] == l'.purchases && l.subs[0 := s] == l'.subs;
    assert UpsertsSub(l, l', l.purchases[0 := p], u, p, 0, 0, true);
  }

  lemma MovesAway(l: Ledger, tx: TxId, original: TxId, other: TxId, u: UserId) returns (l': Ledger)
    requires l.purchases == map[0 := Purchase(tx, original, None, Some(u))] && l.subs.Keys == {0} && original != other
    ensures Capture(l, l', tx, other, None, 1, true) && !PurchasesAgree(l, tx, other)
    ensures l' == l.(purchases := map[0 := Purchase(tx, other, None, Some(u))])
  {
    l' := l.(purchases := map[0 := Purchase(tx, other, None, Some(u))]);
    assert ByTx(l.purchases, tx, 0) && FirstByTx(l.purchases, tx, other, Some(0));
    assert l.purchases[0 := Purchase(tx, other, None, Some(u))] == l'.purchases;
  }

  lemma TakesOver(l: Ledger, moved: TxId, other: TxId, tx: TxId, original: TxId, u: UserId) returns (l': Ledger)
    requires l.purchases.Keys == l.subs.Keys == {0} && moved != tx && other != original
    requires l.purchases[0].tx == moved && l.purchases[0].original == other
    requires l.subs[0].original == original && l.subs[0].tx == moved && l.subs[0].periodEnd.None?
    ensures LinkPurchase(l, l', u, tx, original, None, 0, 1, 1, true) && Agrees(l, tx, original)
    ensures 0 in l'.subs && l'.subs[0].owner == u
  {
    var p, s := Purchase(tx, original, None, Some(u)), Subscription(u, tx, original, false, None);
    l' := Ledger(l.purchases[1 := p], l.subs[0 := s]);
    assert FirstByTx(l.purchases, tx, original, None);
    assert SubByOriginal(l.subs, original, 0) && FindsSub(l.subs, tx, original, Some(0));
    assert UpsertsSub(l, l', l.purchases[1 := p], u, p, 0, 1, true);
  }

  // ---------- What the operations write ----------

  /** After a committed capture the transaction is on record with its original and end; a linked user stays. */
  lemma CaptureWrites(l: Ledger, l': Ledger, tx: TxId, original: TxId, expires: Option<int>, f: RowId) returns (at: RowId)
    requires f !in l.purchases && Capture(l, l', tx, original, expires, f, true)
    ensures at in l'.purchases && l'.subs == l.subs && l'.purchases == l.purchases[at := l'.purchases[at]]
    ensures at in l.purchases ==> l.purchases[at].tx == tx || l.purchases[at].original == original
    ensures l'.purchases[at] == Purchase(tx, original, expires, if at in l.purchases then l.purchases[at].linkedUser else None)
  {
    var found: Option<RowId> :| FirstByTx(l.purchases, tx, original, found) &&
      var row := match found
                 case Some(id) => l.purchases[id].(tx := tx, original := original, expires := expires)
                 case None => Purchase(tx, original, expires, None);
      Commits(l, l', l.(purchases := l.purchases[if found.Some? then found.value else f := row]), true);
    at := if found.Some? then found.value else f;
  }

  /** A link for user u at `now` of the purchase p: the subscription with its ids is u's; it is active exactly if p has an
      end after now, which is the end of its period then; without an end the period of a known subscription stays. */
  ghost predicate IsLinkedSub(l: Ledger, l': Ledger, i: RowId, u: UserId, p: Purchase, now: int) {
    && i in l'.subs && l'.subs[i].owner == u && l'.subs[i].tx == p.tx && l'.subs[i].original == p.original
    && (l'.subs[i].active <==> p.expires.Some? && p.expires.value > now)
    && (p.expires.Some? ==> l'.subs[i].periodEnd == p.expires)
    && (p.expires.None? ==> l'.subs[i].periodEnd == if i in l.subs then l.subs[i].periodEnd else None)
  }

  lemma UpsertWrites(l: Ledger, l': Ledger, purchases: map<RowId, Purchase>, u: UserId, p: Purchase, now: int, g: RowId)
    returns (i: RowId)
    requires g !in l.subs && UpsertsSub(l, l', purchases, u, p, now, g, true)
    ensures IsLinkedSub(l, l', i, u, p, now) && l'.purchases == purchases
  {
    var found: Option<RowId> :| FindsSub(l.subs, p.tx, p.original, found) &&
      var sub := LinkedSub(if found.Some? then Some(l.subs[found.value]) else None, u, p, now);
      Commits(l, l', Ledger(purchases, l.subs[if found.Some? then found.value else g := sub]), true);
    i := if found.Some? then found.value else g;
  }

  /** A committed link: the purchase is u's, with the end that was verified or else the one on record, and its subscription
      follows it. */
  lemma LinkWrites(l: Ledger, l': Ledger, u: UserId, tx: TxId, original: TxId, expires: Option<int>, now: int, f: RowId,
                   g: RowId) returns (at: RowId, i: RowId)
    requires Fresh(l, f, g) && LinkPurchase(l, l', u, tx, original, expires, now, f, g, true)
    ensures at in l'.purchases && l'.purchases == l.purchases[at := l'.purchases[at]]
    ensures var p := l'.purchases[at];
            && p.tx == tx && p.original == original && p.linkedUser == Some(u)
            && p.expires == (if expires.Some? then expires else if at in l.purchases then l.purchases[at].expires else None)
    ensures at in l.purchases ==> l.purchases[at].linkedUser == None || l.purchases[at].linkedUser == Some(u)
    ensures IsLinkedSub(l, l', i, u, l'.purchases[at], now)
  {
    var found: Option<RowId> :| FirstByTx(l.purchases, tx, original, found) &&
      if found.Some? && LinkedToOther(l.purchases[found.value], u) then false
      else
        var known := if found.Some? then l.purchases[found.value].expires else None;
        var p := Purchase(tx, original, if expires.Some? then expires else known, Some(u));
        UpsertsSub(l, l', l.purchases[if found.Some? then found.value else f := p], u, p, now, g, true);
    at := if found.Some? then found.value else f;
    var known := if found.Some? then l.purchases[found.value].expires else None;
    var p := Purchase(tx, original, if expires.Some? then expires else known, Some(u));
    i := UpsertWrites(l, l', l.purchases[at := p], u, p, now, g);
  }

  /** The same for an entry of a bulk link, which leaves all but the linked user of the purchase as it is. */
  lemma LinkByIdsWrites(l: Ledger, l': Ledger, u: UserId, tx: TxId, original: TxId, now: int, g: RowId, linked: Purchase)
    returns (at: RowId, i: RowId)
    requires g !in l.subs && LinkByIds(l, l', u, tx, original, now, g, Some(linked))
    ensures at in l.purchases && (l.purchases[at].linkedUser == None || l.purchases[at].linkedUser == Some(u))
    ensures l.purchases[at].original == original || l.purchases[at].tx == tx
    ensures linked == l.purchases[at].(linkedUser := Some(u)) && l'.purchases == l.purchases[at := linked]
    ensures IsLinkedSub(l, l', i, u, linked, now)
  {
    var found: Option<RowId> :| FirstByOriginal(l.purchases, tx, original, found) &&
      if found.None? || LinkedToOther(l.purchases[found.value], u) then false
      else
        var p := l.purchases[found.value].(linkedUser := Some(u));
        UpsertsSub(l, l', l.purchases[found.value := p], u, p, now, g, true) && linked == p;
    at := found.value;
    i := UpsertWrites(l, l', l.purchases[at := linked], u, linked, now, g);
  }

  /** A committed renewal: the subscription has the new transaction and is active exactly if its new end is after now; the
      owner and the original of a known one stay, a new one is the linked user's. */
  lemma RenewWrites(l: Ledger, l': Ledger, tx: TxId, original: TxId, expires: Option<int>, now: int, g: RowId)
    returns (i: RowId)
    requires g !in l.subs && Renew(l, l', tx, original, expires, now, g, true)
    ensures i in l'.subs && l'.purchases == l.purchases && l'.subs == l.subs[i := l'.subs[i]]
    ensures l'.subs[i].tx == tx && (l'.subs[i].active <==> expires.Some? && expires.value > now)
    ensures expires.Some? ==> l'.subs[i].periodEnd == expires
    ensures i in l.subs ==>
              && l'.subs[i].owner == l.subs[i].owner && l'.subs[i].original == l.subs[i].original
              && (l.subs[i].original == original || l.subs[i].tx == tx)
              && (expires.None? ==> l'.subs[i].periodEnd == l.subs[i].periodEnd)
    ensures i !in l.subs ==>
              && l'.subs[i].original == original && (expires.None? ==> l'.subs[i].periodEnd == None)
              && exists p :: p in l.purchases && l.purchases[p].original == original
                             && l.purchases[p].linkedUser == Some(l'.subs[i].owner)
  {
    var id: RowId, found: Option<RowId> :|
      && ByOriginal(l.purchases, original, id) && l.purchases[id].linkedUser.Some?
      && FindsSub(l.subs, tx, original, found)
      && Commits(l, l', l.(subs := l.subs[if found.Some? then found.value else g :=
                                          RenewedSub(l, id, found, tx, original, expires, now)]), true);
    i := if found.Some? then found.value else g;
  }

  /** A refund makes the lineage's subscription inactive and leaves the rest of it. */
  lemma RefundWrites(l: Ledger, l': Ledger, original: TxId, i: RowId)
    requires OneSubPerLineage(l) && Refund(l, l', original) && i in l.subs && l.subs[i].original == original
    ensures l' == l.(subs := l.subs[i := l.subs[i].(active := false)])
  {
    assert SubByOriginal(l.subs, original, i);
  }

  // ---------- Which calls are served ----------

  /** A capture that agrees with the record is never refused. */
  lemma CapturesAreServed(l: Ledger, l': Ledger, tx: TxId, original: TxId, expires: Option<int>, f: RowId, captured: bool)
    requires Unique(l) && PurchasesAgree(l, tx, original)
    requires f !in l.purchases && Capture(l, l', tx, original, expires, f, captured)
    ensures captured
  {
    var found: Option<RowId> :| FirstByTx(l.purchases, tx, original, found) &&
      var row := match found
                 case Some(id) => l.purchases[id].(tx := tx, original := original, expires := expires)
                 case None => Purchase(tx, original, expires, None);
      Commits(l, l', l.(purchases := l.purchases[if found.Some? then found.value else f := row]), captured);
    PurchaseKeysStay(l, tx, original, found, if found.Some? then found.value else f,
                     match found
                     case Some(id) => l.purchases[id].(tx := tx, original := original, expires := expires)
                     case None => Purchase(tx, original, expires, None));
  }

  /** Writing a purchase with ids that agree with the purchases on record, to the row that is found, keeps their keys. */
  lemma PurchaseKeysStay(l: Ledger, tx: TxId, original: TxId, found: Option<RowId>, at: RowId, p: Purchase)
    requires Unique(l) && PurchasesAgree(l, tx, original) && FirstByTx(l.purchases, tx, original, found)
    requires p.tx == tx && p.original == original && (found.Some? ==> found.value == at)
    ensures UniquePurchases(l.purchases[at := p])
  {
    AgreesAtFound(l, tx, original, found);
    forall i | i in l.purchases && (l.purchases[i].tx == tx || l.purchases[i].original == original)
      ensures found == Some(i)
    {
      assert ByTx(l.purchases, tx, i) || ByOriginal(l.purchases, original, i);
    }
  }

  /** Writing the subscription of a transaction that agrees with the subscriptions on record keeps their key. */
  lemma SubKeysStay(l: Ledger, tx: TxId, original: TxId, found: Option<RowId>, g: RowId, s: Subscription)
    requires Inv(l) && SubsAgree(l, tx, original) && FindsSub(l.subs, tx, original, found) && s.tx == tx
    ensures UniqueSubs(l.subs[if found.Some? then found.value else g := s])
  {
    forall i | i in l.subs && l.subs[i].tx == tx
      ensures found == Some(i)
    {
      assert SubByOriginal(l.subs, original, i);
    }
  }

  /** A link that agrees with the record is refused exactly if the lineage's purchase is linked to somebody else. */
  lemma LinksAreServed(l: Ledger, l': Ledger, u: UserId, tx: TxId, original: TxId, expires: Option<int>, now: int, f: RowId,
                       g: RowId, linked: bool)
    requires Inv(l) && Agrees(l, tx, original)
    requires Fresh(l, f, g) && LinkPurchase(l, l', u, tx, original, expires, now, f, g, linked)
    ensures linked <==> forall i :: i in l.purchases && l.purchases[i].original == original ==>
              l.purchases[i].linkedUser == None || l.purchases[i].linkedUser == Some(u)
  {
    var found: Option<RowId> :| FirstByTx(l.purchases, tx, original, found) &&
      if found.Some? && LinkedToOther(l.purchases[found.value], u) then l' == l && !linked
      else
        var known := if found.Some? then l.purchases[found.value].expires else None;
        var p := Purchase(tx, original, if expires.Some? then expires else known, Some(u));
        UpsertsSub(l, l', l.purchases[if found.Some? then found.value else f := p], u, p, now, g, linked);
    AgreesAtFound(l, tx, original, found);
    if !(found.Some? && LinkedToOther(l.purchases[found.value], u)) {
      var known := if found.Some? then l.purchases[found.value].expires else None;
      var p := Purchase(tx, original, if expires.Some? then expires else known, Some(u));
      var at := if found.Some? then found.value else f;
      PurchaseKeysStay(l, tx, original, found, at, p);
      UpsertIsServed(l, l', l.purchases[at := p], u, p, now, g, linked);
    }
  }

  lemma UpsertIsServed(l: Ledger, l': Ledger, purchases: map<RowId, Purchase>, u: UserId, p: Purchase, now: int, g: RowId,
                       committed: bool)
    requires Inv(l) && SubsAgree(l, p.tx, p.original) && UniquePurchases(purchases)
    requires UpsertsSub(l, l', purchases, u, p, now, g, committed)
    ensures committed
  {
    var found: Option<RowId> :| FindsSub(l.subs, p.tx, p.original, found) &&
      var sub := LinkedSub(if found.Some? then Some(l.subs[found.value]) else None, u, p, now);
      Commits(l, l', Ledger(purchases, l.subs[if found.Some? then found.value else g := sub]), committed);
    SubKeysStay(l, p.tx, p.original, found, g,
                LinkedSub(if found.Some? then Some(l.subs[found.value]) else None, u, p, now));
  }

  /** The purchase an entry of a bulk link is about: by the client's original, or, without one, by the client's
      transaction. */
  ghost predicate IsMeant(l: Ledger, tx: TxId, original: TxId, at: RowId) {
    && at in l.purchases
    && (|| l.purchases[at].original == original
        || (l.purchases[at].tx == tx && forall i :: i in l.purchases ==> l.purchases[i].original != original))
  }

  /** An entry of a bulk link whose purchase agrees with the subscriptions on record is refused exactly if that purchase is
      linked to somebody else; one that means no purchase is refused. */
  lemma BulkLinksAreServed(l: Ledger, l': Ledger, u: UserId, tx: TxId, original: TxId, now: int, g: RowId,
                           linked: Option<Purchase>)
    requires Inv(l) && g !in l.subs && LinkByIds(l, l', u, tx, original, now, g, linked)
    ensures forall at :: IsMeant(l, tx, original, at) && SubsAgree(l, l.purchases[at].tx, l.purchases[at].original) ==>
              (linked.Some? <==> l.purchases[at].linkedUser == None || l.purchases[at].linkedUser == Some(u))
    ensures (forall at :: !IsMeant(l, tx, original, at)) ==> linked.None?
  {
    var found: Option<RowId> :| FirstByOriginal(l.purchases, tx, original, found) &&
      if found.None? || LinkedToOther(l.purchases[found.value], u) then l' == l && linked == None
      else
        var p := l.purchases[found.value].(linkedUser := Some(u));
        && UpsertsSub(l, l', l.purchases[found.value := p], u, p, now, g, linked.Some?)
        && (linked.Some? ==> linked.value == p);
    FoundIsMeant(l, tx, original, found);
    if found.Some? && !LinkedToOther(l.purchases[found.value], u)
       && SubsAgree(l, l.purchases[found.value].tx, l.purchases[found.value].original)
    {
      var p := l.purchases[found.value].(linkedUser := Some(u));
      UpsertIsServed(l, l', l.purchases[found.value := p], u, p, now, g, linked.Some?);
    }
  }

  lemma FoundIsMeant(l: Ledger, tx: TxId, original: TxId, found: Option<RowId>)
    requires Unique(l) && FirstByOriginal(l.purchases, tx, original, found)
    ensures forall at: RowId :: IsMeant(l, tx, original, at) <==> found == Some(at)
  {
    forall at: RowId
      ensures IsMeant(l, tx, original, at) <==> found == Some(at)
    {
      if at in l.purchases && l.purchases[at].original == original {
        assert ByOriginal(l.purchases, original, at);
      }
      if at in l.purchases && l.purchases[at].tx == tx {
        assert ByTx(l.purchases, tx, at);
      }
      if found == Some(at) && l.purchases[at].original != original {
        assert forall i :: i in l.purchases ==> !ByOriginal(l.purchases, original, i);
      }
    }
  }

  /** A renewal that agrees with the subscriptions on record is carried out exactly if the lineage's purchase is linked. */
  lemma RenewalsAreServed(l: Ledger, l': Ledger, tx: TxId, original: TxId, expires: Option<int>, now: int, g: RowId,
                          renewed: bool)
    requires Inv(l) && SubsAgree(l, tx, original)
    requires g !in l.subs && Renew(l, l', tx, original, expires, now, g, renewed)
    ensures renewed <==>
              exists i :: i in l.purchases && l.purchases[i].original == original && l.purchases[i].linkedUser.Some?
  {
    if i :| i in l.purchases && l.purchases[i].original == original && l.purchases[i].linkedUser.Some? {
      assert ByOriginal(l.purchases, original, i);
      var id: RowId, found: Option<RowId> :|
        && ByOriginal(l.purchases, original, id) && l.purchases[id].linkedUser.Some?
        && FindsSub(l.subs, tx, original, found)
        && Commits(l, l', l.(subs := l.subs[if found.Some? then found.value else g :=
                                            RenewedSub(l, id, found, tx, original, expires, now)]), renewed);
      SubKeysStay(l, tx, original, found, g, RenewedSub(l, id, found, tx, original, expires, now));
    }
  }

  // ---------- The report of a bulk link ----------

  /** The entries that have, or have not, linked a purchase, in their order. */
  ghost function Positions(results: seq<Option<Purchase>>, linked: bool): (at: seq<nat>)
    ensures forall j, k :: 0 <= j < k < |at| ==> at[j] < at[k]
    ensures forall j :: 0 <= j < |at| ==> at[j] < |results| && results[at[j]].Some? == linked
  {
    if results == [] then []
    else
      var n := |results| - 1;
      Positions(results[..n], linked) + if results[n].Some? == linked then [n] else []
  }

  /** The two lists of a report: the linked purchases, and the entries without one, each in the order of the entries. */
  ghost predicate IsReport(entries: seq<(TxId, TxId)>, results: seq<Option<Purchase>>, linked: seq<Purchase>,
                           errors: seq<(TxId, TxId)>)
    requires |results| <= |entries|
  {
    ReportsLinked(results, linked) && ReportsErrors(entries, results, errors)
  }

  ghost predicate ReportsLinked(results: seq<Option<Purchase>>, linked: seq<Purchase>) {
    var at := Positions(results, true);
    |linked| == |at| && forall j :: 0 <= j < |at| ==> results[at[j]] == Some(linked[j])
  }

  ghost predicate ReportsErrors(entries: seq<(TxId, TxId)>, results: seq<Option<Purchase>>, errors: seq<(TxId, TxId)>)
    requires |results| <= |entries|
  {
    var at := Positions(results, false);
    |errors| == |at| && forall j :: 0 <= j < |at| ==> errors[j] == entries[at[j]]
  }

  lemma PositionsOneMore(results: seq<Option<Purchase>>, result: Option<Purchase>, linked: bool)
    ensures Positions(results + [result], linked) ==
            Positions(results, linked) + if result.Some? == linked then [|results|] else []
  {
    assert (results + [result])[..|results|] == results;
  }

  /** Every entry is reported once, in the list it belongs to. */
  lemma {:induction false} EveryEntryIsReported(results: seq<Option<Purchase>>, i: nat) returns (j: nat)
    requires i < |results|
    ensures |Positions(results, true)| + |Positions(results, false)| == |results|
    ensures j < |Positions(results, results[i].Some?)| && Positions(results, results[i].Some?)[j] == i
  {
    var init, last := results[..|results| - 1], results[|results| - 1];
    assert results == init + [last];
    PositionsOneMore(init, last, true);
    PositionsOneMore(init, last, false);
    if init == [] {
      j := 0;
    } else if i == |init| {
      var _ := EveryEntryIsReported(init, 0);
      j := |Positions(init, last.Some?)|;
    } else {
      j := EveryEntryIsReported(init, i);
    }
  }

  /** The first |results| entries, each a step from one state of the ledger to the next. */
  ghost predicate LinksInTurn(run: seq<Ledger>, u: UserId, entries: seq<(TxId, TxId)>, now: int, freshSubs: seq<RowId>,
                              results: seq<Option<Purchase>>)
    requires |results| <= |entries| == |freshSubs|
  {
    && |run| == |results| + 1
    && forall i :: 0 <= i < |results| ==>
         && freshSubs[i] !in run[i].subs
         && LinkByIds(run[i], run[i + 1], u, entries[i].0, entries[i].1, now, freshSubs[i], results[i])
  }

  lemma LinksOneMore(run: seq<Ledger>, l': Ledger, u: UserId, entries: seq<(TxId, TxId)>, now: int, freshSubs: seq<RowId>,
                     results: seq<Option<Purchase>>, result: Option<Purchase>)
    requires |results| < |entries| == |freshSubs| && LinksInTurn(run, u, entries, now, freshSubs, results)
    requires var k := |results|;
             && freshSubs[k] !in run[k].subs
             && LinkByIds(run[k], l', u, entries[k].0, entries[k].1, now, freshSubs[k], result)
    ensures LinksInTurn(run + [l'], u, entries, now, freshSubs, results + [result])
  {
    var more, run' := results + [result], run + [l'];
    forall i | 0 <= i < |more|
      ensures freshSubs[i] !in run'[i].subs
      ensures LinkByIds(run'[i], run'[i + 1], u, entries[i].0, entries[i].1, now, freshSubs[i], more[i])
    {
      if i < |results| {
        assert run'[i] == run[i] && run'[i + 1] == run[i + 1] && more[i] == results[i];
      }
    }
  }

  lemma ReportOneMore(entries: seq<(TxId, TxId)>, results: seq<Option<Purchase>>, linked: seq<Purchase>,
                      errors: seq<(TxId, TxId)>, result: Option<Purchase>)
    requires |results| < |entries| && IsReport(entries, results, linked, errors)
    ensures result.Some? ==> IsReport(entries, results + [result], linked + [result.value], errors)
    ensures result.None? ==> IsReport(entries, results + [result], linked, errors + [entries[|results|]])
  {
    PositionsOneMore(results, result, true);
    PositionsOneMore(results, result, false);
  }

  // ---------- The service in place ----------

  class AppleService {
    var purchases: map<RowId, Purchase>
    var subs: map<RowId, Subscription>

    constructor ()
      ensures Snapshot() == Ledger(map[], map[])
    {
      purchases, subs := map[], map[];
    }

    function Snapshot(): Ledger
      reads this
    {
      Ledger(purchases, subs)
    }

    method FindUnique(tx: TxId, original: TxId, txFirst: bool) returns (found: Option<RowId>)
      ensures txFirst ==> FirstByTx(purchases, tx, original, found)
      ensures !txFirst ==> FirstByOriginal(purchases, tx, original, found)
    {
      var byTx := set id | id in purchases && purchases[id].tx == tx;
      var byOriginal := set id | id in purchases && purchases[id].original == original;
      assert forall id :: ByTx(purchases, tx, id) <==> id in byTx;
      assert forall id :: ByOriginal(purchases, original, id) <==> id in byOriginal;
      var first, second := if txFirst then byTx else byOriginal, if txFirst then byOriginal else byTx;
      if first != {} {
        var id :| id in first;
        return Some(id);
      }
      if second != {} {
        var id :| id in second;
        return Some(id);
      }
      return None;
    }

    method FindSub(tx: TxId, original: TxId) returns (found: Option<RowId>)
      ensures FindsSub(subs, tx, original, found)
    {
      var byOriginal := set id | id in subs && subs[id].original == original;
      var byTx := set id | id in subs && subs[id].tx == tx;
      assert forall id :: SubByOriginal(subs, original, id) <==> id in byOriginal;
      assert forall id :: SubByTx(subs, tx, id) <==> id in byTx;
      if byOriginal != {} {
        var id :| id in byOriginal;
        return Some(id);
      }
      if byTx != {} {
        var id :| id in byTx;
        return Some(id);
      }
      return None;
    }

    /** The end of a transaction: the rows are written unless a unique key is violated. */
    method Commit(newPurchases: map<RowId, Purchase>, newSubs: map<RowId, Subscription>) returns (committed: bool)
      modifies this
      ensures Commits(old(Snapshot()), Snapshot(), Ledger(newPurchases, newSubs), committed)
    {
      var txs := forall i, j ::
        i in newPurchases.Keys && j in newPurchases.Keys && newPurchases[i].tx == newPurchases[j].tx ==> i == j;
      var originals := forall i, j ::
        i in newPurchases.Keys && j in newPurchases.Keys && newPurchases[i].original == newPurchases[j].original ==>
        i == j;
      var subTxs := forall i, j :: i in newSubs.Keys && j in newSubs.Keys && newSubs[i].tx == newSubs[j].tx ==> i == j;
      committed := txs && originals && subTxs;
      if committed {
        purchases, subs := newPurchases, newSubs;
      }
    }

    method CapturePurchase(tx: TxId, original: TxId, expires: Option<int>, freshId: RowId) returns (captured: bool)
      requires freshId !in purchases
      modifies this
      ensures Capture(old(Snapshot()), Snapshot(), tx, original, expires, freshId, captured)
    {
      var found := FindUnique(tx, original, true);
      if found.Some? {
        var row := purchases[found.value];
        captured := Commit(purchases[found.value := row.(tx := tx, original := original, expires := expires)], subs);
      } else {
        captured := Commit(purchases[freshId := Purchase(tx, original, expires, None)], subs);
      }
    }

    method LinkPurchaseToUser(u: UserId, tx: TxId, original: TxId, expires: Option<int>, now: int, freshPurchase: RowId,
                              freshSub: RowId) returns (linked: bool)
      requires Fresh(Snapshot(), freshPurchase, freshSub)
      modifies this
      ensures LinkPurchase(old(Snapshot()), Snapshot(), u, tx, original, expires, now, freshPurchase, freshSub, linked)
      ensures if linked then exists id :: id in purchases && purchases[id].linkedUser == Some(u)
                                          && purchases[id].tx == tx && purchases[id].original == original
              else Snapshot() == old(Snapshot())
    {
      var found := FindUnique(tx, original, true);
      if found.Some? && purchases[found.value].linkedUser.Some? && purchases[found.value].linkedUser.value != u {
        return false;
      }
      var known := if found.Some? then purchases[found.value].expires else None;
      var purchase := Purchase(tx, original, if expires.Some? then expires else known, Some(u));
      var at := if found.Some? then found.value else freshPurchase;
      linked := UpsertSub(purchases[at := purchase], u, purchase, now, freshSub);
      assert linked ==> purchases[at] == purchase;
    }

    method UpsertSub(newPurchases: map<RowId, Purchase>, u: UserId, p: Purchase, now: int, freshSub: RowId)
      returns (committed: bool)
      modifies this
      ensures UpsertsSub(old(Snapshot()), Snapshot(), newPurchases, u, p, now, freshSub, committed)
      ensures if committed then purchases == newPurchases else Snapshot() == old(Snapshot())
      ensures subs.Keys <= old(subs).Keys + {freshSub}
    {
      var found := FindSub(p.tx, p.original);
      var existing := if found.Some? then Some(subs[found.value]) else None;
      var sub := Subscription(u, p.tx, p.original, p.expires.Some? && p.expires.value > now,
                              if p.expires.Some? || existing.None? then p.expires else existing.value.periodEnd);
      committed := Commit(newPurchases, subs[if found.Some? then found.value else freshSub := sub]);
    }

    /** One entry of the bulk link. */
    method LinkOneById(u: UserId, tx: TxId, original: TxId, now: int, freshSub: RowId) returns (linked: Option<Purchase>)
      modifies this
      ensures LinkByIds(old(Snapshot()), Snapshot(), u, tx, original, now, freshSub, linked)
      ensures match linked
              case Some(p) =>
                && p.linkedUser == Some(u) && (p.original == original || p.tx == tx)
                && exists id :: id in purchases && purchases[id] == p
              case None => Snapshot() == old(Snapshot())
      ensures subs.Keys <= old(subs).Keys + {freshSub}
    {
      var found := FindUnique(tx, original, false);
      if found.None? {
        return None;
      }
      var purchase := purchases[found.value];
      if purchase.linkedUser.Some? && purchase.linkedUser.value != u {
        return None;
      }
      var p := purchase.(linkedUser := Some(u));
      var committed := UpsertSub(purchases[found.value := p], u, p, now, freshSub);
      linked := if committed then Some(p) else None;
      assert committed ==> purchases[found.value] == p;
    }

    /** linkWithTransactionIds: one transaction after the other; an entry that fails does not stop the others. Every state
        on the way is one entry further; the purchases that were linked, and the entries that were not, are reported in
        order. */
    method LinkWithTransactionIds(u: UserId, entries: seq<(TxId, TxId)>, now: int, freshSubs: seq<RowId>)
      returns (linked: seq<Purchase>, errors: seq<(TxId, TxId)>, ghost run: seq<Ledger>,
               ghost results: seq<Option<Purchase>>)
      requires |freshSubs| == |entries| && forall i :: 0 <= i < |entries| ==> freshSubs[i] !in subs
      requires forall i, j :: 0 <= i < j < |entries| ==> freshSubs[i] != freshSubs[j]
      modifies this
      ensures |results| == |entries| && LinksInTurn(run, u, entries, now, freshSubs, results)
      ensures run[0] == old(Snapshot()) && run[|entries|] == Snapshot()
      ensures IsReport(entries, results, linked, errors)
    {
      linked, errors, run, results := [], [], [Snapshot()], [];
      for k := 0 to |entries|
        invariant |results| == k && LinksInTurn(run, u, entries, now, freshSubs, results)
        invariant run[0] == old(Snapshot()) && run[k] == Snapshot()
        invariant forall i :: k <= i < |entries| ==> freshSubs[i] !in subs
        invariant IsReport(entries, results, linked, errors)
      {
        var result := LinkOneById(u, entries[k].0, entries[k].1, now, freshSubs[k]);
        LinksOneMore(run, Snapshot(), u, entries, now, freshSubs, results, result);
        ReportOneMore(entries, results, linked, errors, result);
        run, results := run + [Snapshot()], results + [result];
        if result.Some? {
          linked := linked + [result.value];
        } else {
          errors := errors + [entries[k]];
        }
      }
    }

    method ProcessAppleReceipt(tx: TxId, original: TxId, expires: Option<int>, now: int, freshSub: RowId)
      returns (renewed: bool)
      requires freshSub !in subs
      modifies this
      ensures Renew(old(Snapshot()), Snapshot(), tx, original, expires, now, freshSub, renewed)
    {
      var byOriginal := set id | id in purchases && purchases[id].original == original && purchases[id].linkedUser.Some?;
      assert forall id :: ByOriginal(purchases, original, id) && purchases[id].linkedUser.Some? <==> id in byOriginal;
      if byOriginal == {} {
        return false;
      }
      var id :| id in byOriginal;
      assert ByOriginal(purchases, original, id);
      var found := FindSub(tx, original);
      ghost var before := Snapshot();
      var active := expires.Some? && expires.value > now;
      var sub := if found.Some?
                 then subs[found.value].(tx := tx, active := active,
                                         periodEnd := if expires.Some? then expires else subs[found.value].periodEnd)
                 else Subscription(purchases[id].linkedUser.value, tx, original, active, expires);
      assert sub == RenewedSub(before, id, found, tx, original, expires, now);
      renewed := Commit(purchases, subs[if found.Some? then found.value else freshSub := sub]);
      assert Commits(before, Snapshot(), before.(subs := before.subs[if found.Some? then found.value else freshSub := sub]),
                     renewed);
    }
  }
}
