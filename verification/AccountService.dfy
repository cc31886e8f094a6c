/** linkProvider, unlinkProvider and the mapping writer, in place and step by step, against the relations of Accounts. */
module AccountServices {
  import opened Common
  import opened Accounts

  class AccountService<D(==)> {
    var users: map<UserId, User>
    var links: set<Link>
    var subs: map<SubId, Subscription<D>>
    var rows: map<Key, Role>

    constructor ()
      ensures Snapshot() == Db(map[], {}, map[], map[])
    {
      users, links, subs, rows := map[], {}, map[], map[];
    }

    function Snapshot(): Db<D>
      reads this
    {
      Db(users, links, subs, rows)
    }

    /** The columns that the look-up asks for. */
    static ghost predicate GivesAccess(s: Subscription<D>, now: int) {
      (s.status == Active || s.status == Trialing) && (s.periodEnd.Some? ==> now <= s.periodEnd.value)
    }

    /** findUnique on users. */
    method FindUser(matches: User -> bool) returns (found: Option<UserId>)
      ensures Looks(users, matches, found)
    {
      var ids := set u | u in users && matches(users[u]);
      if ids == {} {
        assert forall u :: u in users && matches(users[u]) ==> u in ids;
        return None;
      }
      var u :| u in ids;
      return Some(u);
    }

    method GetActiveSubscription(u: UserId, now: int) returns (found: Option<SubId>)
      ensures ActiveSubscription(Snapshot(), u, now, found)
      ensures found.Some? <==> Entitled(Snapshot(), u, now)
      ensures match found
              case Some(id) =>
                && id in subs && (subs[id].owner == u || Key(id, u) in rows) && GivesAccess(subs[id], now)
                && (forall j :: j in subs && subs[j].owner == u && GivesAccess(subs[j], now) ==>
                      subs[id].owner == u && subs[j].createdAt <= subs[id].createdAt)
                && (subs[id].owner != u && subs[id].periodEnd.Some? ==>
                      forall j :: j in subs && Key(j, u) in rows && GivesAccess(subs[j], now) ==>
                        subs[j].periodEnd.Some? && subs[j].periodEnd.value <= subs[id].periodEnd.value)
              case None =>
                forall j :: j in subs && (subs[j].owner == u || Key(j, u) in rows) ==> !GivesAccess(subs[j], now)
    {
      var direct := set id | id in subs && subs[id].owner == u && InForce(subs[id], now);
      assert forall id :: Owns(Snapshot(), u, now, id) <==> id in direct;
      assert forall id :: id in subs && subs[id].owner == u && GivesAccess(subs[id], now) ==> id in direct;
      if direct != {} {
        var newest := Newest(direct);
        assert NewestOwned(Snapshot(), u, now, newest);
        return Some(newest);
      }
      var mapped := set k | k in rows && k.user == u && k.sub in subs && InForce(subs[k.sub], now);
      assert forall id :: MappedTo(Snapshot(), u, now, id) <==> Key(id, u) in mapped;
      assert forall id :: id in subs && Key(id, u) in rows && GivesAccess(subs[id], now) ==> Key(id, u) in mapped;
      if mapped != {} {
        var longest := Longest(mapped);
        assert longest == Key(longest.sub, u);
        assert LongestMapped(Snapshot(), u, now, longest.sub);
        return Some(longest.sub);
      }
      return None;
    }

    /** The first in descending order of createdAt. */
    method Newest(ids: set<SubId>) returns (newest: SubId)
      requires ids != {} && ids <= subs.Keys
      ensures newest in ids && forall j :: j in ids ==> subs[j].createdAt <= subs[newest].createdAt
    {
      newest :| newest in ids;
      var rest := ids - {newest};
      while rest != {}
        invariant newest in ids && rest <= ids
        invariant forall j :: j in ids && j !in rest ==> subs[j].createdAt <= subs[newest].createdAt
        decreases rest
      {
        var j :| j in rest;
        rest := rest - {j};
        if subs[newest].createdAt < subs[j].createdAt {
          newest := j;
        }
      }
    }

    /** The first in descending order of the subscription's end. */
    method Longest(keys: set<Key>) returns (longest: Key)
      requires keys != {} && forall k :: k in keys ==> k.sub in subs
      ensures longest in keys
      ensures forall k :: k in keys ==> EndsNoLater(subs[k.sub].periodEnd, subs[longest.sub].periodEnd)
    {
      longest :| longest in keys;
      var rest := keys - {longest};
      while rest != {}
        invariant longest in keys && rest <= keys
        invariant forall k :: k in keys && k !in rest ==> EndsNoLater(subs[k.sub].periodEnd, subs[longest.sub].periodEnd)
        decreases rest
      {
        var k :| k in rest;
        rest := rest - {k};
        if !EndsNoLater(subs[k.sub].periodEnd, subs[longest.sub].periodEnd) {
          longest := k;
        }
      }
    }

    /** The rows of linked_accounts of a user that belong to a partner with the provider. */
    method PartnersWith(u: UserId, provider: Provider) returns (found: set<Link>)
      ensures forall l :: l in found <==> CanUnlink(Snapshot(), u, provider, l)
    {
      var rest := set l | l in links && l.Touches(u);
      found := {};
      ghost var seen := {};
      while rest != {}
        invariant forall l :: l in links && l.Touches(u) <==> l in rest || l in seen
        invariant forall l :: l in found <==> l in seen && CanUnlink(Snapshot(), u, provider, l)
        decreases rest
      {
        var l :| l in rest;
        if l.Other(u) in users && HasProviderType(users[l.Other(u)], provider) {
          found := found + {l};
        }
        rest, seen := rest - {l}, seen + {l};
      }
    }

    static predicate KeysAreUnique(users: map<UserId, User>)
      ensures KeysAreUnique(users) <==> UniqueKeys(users)
    {
      forall a, b :: a in users.Keys && b in users.Keys && a != b ==>
        && users[a].email != users[b].email
        && (users[a].firebaseUid.Some? ==> users[a].firebaseUid != users[b].firebaseUid)
        && (users[a].appleUserId.Some? ==> users[a].appleUserId != users[b].appleUserId)
        && (users[a].googleUserId.Some? ==> users[a].googleUserId != users[b].googleUserId)
    }

    /** The look-ups for the secondary user. */
    method FindSecondary(p: UserId, provider: Provider, token: Token) returns (found: Option<UserId>)
      ensures FindsSecondary(users, p, provider, token, found)
    {
      var byUid := FindUser(HasFirebaseUid(token.uid));
      var byApple: Option<UserId> := None;
      if token.appleIdentity.Some? {
        byApple := FindUser(HasAppleId(token.appleIdentity.value));
      }
      var byEmail: Option<UserId> := None;
      if token.email.Some? {
        byEmail := FindUser(HasEmail(token.email.value));
      }
      found := if byUid.Some? && byUid.value == p then None else byUid;
      if found.None? && provider == Apple && token.appleIdentity.Some? {
        found := byApple;
      }
      if found.None? && token.email.Some? {
        if byEmail.Some? && byEmail.value != p {
          found := byEmail;
        }
      }
      assert found == FirstFound(p, provider, byUid, byApple, byEmail);
    }

    /** The secondary user: found, created, or found by email after a unique key stopped the creation. */
    method ResolveSecondary(p: UserId, provider: Provider, token: Token, newId: UserId)
      returns (secondary: Option<UserId>, why: Refusal)
      requires p in users && newId !in users
      modifies this`users
      ensures secondary.Some? ==> ResolvesSecondary(old(users), p, provider, token, newId, users, secondary.value)
      ensures secondary.None? ==> users == old(users) && CannotResolve(users, p, provider, token, newId, why)
    {
      why := TakenByOther;
      secondary := FindSecondary(p, provider, token);
      if secondary.None? || secondary.value == p {
        if provider == Apple && token.appleIdentity.None? {
          return None, NoAppleIdentity;
        }
        var created := users[newId := NewUser(users, p, provider, token)];
        if KeysAreUnique(created) {
          users := created;
          secondary := Some(newId);
        } else {
          var fallback: Option<UserId> := None;
          if token.email.Some? {
            fallback := FindOther(p, token.email.value);
          }
          if fallback.None? {
            return None, TakenByOther;
          }
          secondary := fallback;
        }
      }
    }

    method FindOther(p: UserId, email: string) returns (found: Option<UserId>)
      ensures found.Some? ==> found.value != p && Looks(users, HasEmail(email), found)
      ensures found.None? ==> forall u :: u in users && u != p ==> users[u].email != email
    {
      var ids := set u | u in users && u != p && users[u].email == email;
      if ids == {} {
        assert forall u :: u in users && u != p && users[u].email == email ==> u in ids;
        return None;
      }
      var u :| u in ids;
      return Some(u);
    }

    method LinkProvider(p: UserId, provider: Provider, token: Token, now: int, newId: UserId) returns (outcome: Outcome)
      requires newId !in users
      modifies this
      ensures LinkStep(old(Snapshot()), Snapshot(), p, provider, token, now, newId, outcome)
    {
      if p !in users {
        return Refused(UserNotFound);
      }
      if users[p].provider == provider {
        return Refused(SameProvider);
      }
      var taken := PartnersWith(p, provider);
      if taken != {} {
        ghost var l :| l in taken;
        assert CanUnlink(Snapshot(), p, provider, l);
        return Refused(HasProvider);
      }
      forall l | l in links && l.Touches(p) && l.Other(p) in users
        ensures !HasProviderType(users[l.Other(p)], provider)
      {
        assert CanUnlink(Snapshot(), p, provider, l) ==> l in taken;
      }
      var secondary, why := ResolveSecondary(p, provider, token, newId);
      if secondary.None? {
        return Refused(why);
      }
      outcome := FinishLink(p, provider, token, now, secondary.value, old(users), newId);
    }

    /** linkProvider once the secondary user is known; `before` is the users table at the start of the call. */
    method FinishLink(p: UserId, provider: Provider, token: Token, now: int, s: UserId,
                      ghost before: map<UserId, User>, ghost newId: UserId) returns (outcome: Outcome)
      requires p in before && newId !in before && ResolvesSecondary(before, p, provider, token, newId, users, s)
      modifies this
      ensures p in old(users) && s in old(users)
      ensures exists primarySub, secondarySub ::
                Finishes(old(Snapshot()).(users := before), Snapshot(), p, provider, token, now, old(users), s, primarySub,
                         secondarySub, outcome)
    {
      ResolvedUsers(before, p, provider, token, newId, users, s);
      ghost var start := Snapshot().(users := before);
      ghost var resolved := users;
      var touching := set l | l in links && l.Touches(s);
      if touching != {} {
        var existing :| existing in touching;
        outcome := if existing == Link(p, s) || existing == Link(s, p) then WasLinkedTo(s) else Refused(LinkedElsewhere);
        assert Finishes(start, Snapshot(), p, provider, token, now, resolved, s, None, None, outcome);
        return;
      }
      assert forall l :: l in links && l.Touches(s) ==> l in touching;
      var fixedUsers := users[s := FixedUp(users, p, provider, token, users[s])];
      if !KeysAreUnique(fixedUsers) {
        outcome := Refused(KeyTaken);
        assert Finishes(start, Snapshot(), p, provider, token, now, resolved, s, None, None, outcome);
        return;
      }
      users := fixedUsers;
      ghost var primarySub, secondarySub;
      outcome, primarySub, secondarySub := Join(p, s, now);
      assert Finishes(start, Snapshot(), p, provider, token, now, resolved, s, primarySub, secondarySub, outcome);
    }

    /** The subscription check, the link, and the LINKED row. */
    method Join(p: UserId, s: UserId, now: int)
      returns (outcome: Outcome, primarySub: Option<SubId>, secondarySub: Option<SubId>)
      modifies this`links, this`rows
      ensures Joins(old(Snapshot()), Snapshot(), p, s, now, primarySub, secondarySub, outcome)
    {
      primarySub := GetActiveSubscription(p, now);
      secondarySub := GetActiveSubscription(s, now);
      if primarySub.Some? && secondarySub.Some? {
        outcome := Refused(BothSubscribed);
        return;
      }
      links := links + {Link(p, s)};
      var activeSub := if primarySub.Some? then primarySub else secondarySub;
      if activeSub.Some? {
        var linkedUserId := if subs[activeSub.value].owner == p then s else p;
        if Key(activeSub.value, linkedUserId) in rows {
          outcome := Refused(AlreadyMapped);
          return;
        }
        rows := rows[Key(activeSub.value, linkedUserId) := Linked];
      }
      outcome := LinkedTo(s);
    }

    method UnlinkProvider(u: UserId, provider: Provider) returns (outcome: UnlinkOutcome)
      modifies this`links, this`rows
      ensures UnlinkStep(old(Snapshot()), Snapshot(), u, provider, outcome)
    {
      if u !in users || users[u].provider == provider {
        return UnlinkRefused;
      }
      var candidates := PartnersWith(u, provider);
      if candidates == {} {
        assert forall l :: CanUnlink(Snapshot(), u, provider, l) ==> l in candidates;
        return UnlinkRefused;
      }
      ghost var before := Snapshot();
      var l :| l in candidates;
      var b := l.Other(u);
      links := links - {l};
      var ownedSubIds := set id | id in subs && subs[id].owner in {u, b};
      rows := map k | k in rows && !(rows[k] == Linked && k.sub in ownedSubIds && k.user in {u, b}) :: rows[k];
      assert forall k :: k in before.rows ==>
          (SharedRow(before, u, b, k) <==> before.rows[k] == Linked && k.sub in ownedSubIds && k.user in {u, b});
      assert CanUnlink(before, u, provider, l);
      return UnlinkedFrom(b);
    }

    /** ensureSubscriptionUserMapping: OWNER, then one LINKED row per partner; a row that exists is left alone. */
    method EnsureSubscriptionUserMapping(id: SubId, u: UserId)
      modifies this`rows
      ensures rows == Mapped(old(rows), links, id, u)
    {
      var start := rows;
      if Key(id, u) !in rows {
        rows := rows[Key(id, u) := Owner];
      }
      var rest := set l | l in links && l.Touches(u);
      ghost var done: set<Link> := {};
      while rest != {}
        invariant forall l :: l in links && l.Touches(u) <==> l in rest || l in done
        invariant forall k :: k in rows <==>
                    k in start || k == Key(id, u) || (k.sub == id && exists l :: l in done && l.Other(u) == k.user)
        invariant forall k :: k in rows ==>
                    rows[k] == if k in start then start[k] else if k == Key(id, u) then Owner else Linked
        decreases rest
      {
        var l :| l in rest;
        var linkedUserId := l.Other(u);
        if Key(id, linkedUserId) !in rows {
          rows := rows[Key(id, linkedUserId) := Linked];
        }
        rest, done := rest - {l}, done + {l};
      }
      forall k
        ensures k in rows <==> k in Mapped(start, links, id, u)
        ensures k in rows ==> rows[k] == Mapped(start, links, id, u)[k]
      {
        MappedRows(start, links, id, u, k);
        if AreLinked(links, u, k.user) {
          var l := if Link(u, k.user) in links then Link(u, k.user) else Link(k.user, u);
          assert l.Touches(u) && l.Other(u) == k.user;
        }
      }
    }
  }
}
