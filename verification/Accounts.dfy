/**
 Linked accounts and shared entitlement: linkProvider and unlinkProvider (src/auth/auth.service.ts), the LINKED-mapping
 writers of the payment services, and getActiveSubscriptionForUser (src/subscription/subscription-lookup.util.ts).
 */
module Accounts {
  import opened Common

  type SubId = nat

  datatype Provider = Google | Apple

  datatype User = User(provider: Provider, firebaseUid: Option<string>, appleUserId: Option<string>,
                       googleUserId: Option<string>, email: string)

  datatype Status = Active | Inactive | Trialing | PastDue | Cancelled | Expired

  /** A row of subscriptions; `detail` stands for the columns that only the payment services look at. */
  datatype Subscription<D> = Subscription(owner: UserId, createdAt: int, status: Status, periodEnd: Option<int>,
                                          detail: D)

  datatype Role = Owner | Linked
  datatype Key = Key(sub: SubId, user: UserId)

  /** users, linked_accounts, subscriptions and subscription_users. The last two unique keys, (primaryUserId,
      linkedUserId) and (subscriptionId, userId), are those of a set and a map. */
  datatype Db<D> = Db(users: map<UserId, User>, links: set<Link>, subs: map<SubId, Subscription<D>>,
                      rows: map<Key, Role>)

  // ---------- Entitlement ----------

  predicate InForce<D>(s: Subscription<D>, now: int) {
    s.status in {Active, Trialing} && (s.periodEnd.None? || s.periodEnd.value >= now)
  }

  ghost predicate Owns<D>(db: Db<D>, u: UserId, now: int, id: SubId) {
    id in db.subs && db.subs[id].owner == u && InForce(db.subs[id], now)
  }

  ghost predicate MappedTo<D>(db: Db<D>, u: UserId, now: int, id: SubId) {
    Key(id, u) in db.rows && id in db.subs && InForce(db.subs[id], now)
  }

  ghost predicate OwnsAny<D>(db: Db<D>, u: UserId, now: int) {
    exists id :: Owns(db, u, now, id)
  }

  ghost predicate Entitled<D>(db: Db<D>, u: UserId, now: int) {
    OwnsAny(db, u, now) || exists id :: MappedTo(db, u, now, id)
  }

  /** PostgreSQL's descending order puts a missing end first. */
  predicate EndsNoLater(a: Option<int>, b: Option<int>) {
    b.None? || (a.Some? && a.value <= b.value)
  }

  ghost predicate NewestOwned<D>(db: Db<D>, u: UserId, now: int, id: SubId) {
    Owns(db, u, now, id) && forall j :: Owns(db, u, now, j) ==> db.subs[j].createdAt <= db.subs[id].createdAt
  }

  ghost predicate LongestMapped<D>(db: Db<D>, u: UserId, now: int, id: SubId) {
    && MappedTo(db, u, now, id)
    && forall j :: MappedTo(db, u, now, j) ==> EndsNoLater(db.subs[j].periodEnd, db.subs[id].periodEnd)
  }

  /** getActiveSubscriptionForUser: the newest own subscription if there is one, else the mapped one that ends last. */
  ghost predicate ActiveSubscription<D>(db: Db<D>, u: UserId, now: int, found: Option<SubId>) {
    if OwnsAny(db, u, now) then found.Some? && NewestOwned(db, u, now, found.value)
    else if exists id :: MappedTo(db, u, now, id) then found.Some? && LongestMapped(db, u, now, found.value)
    else found.None?
  }

  // ---------- linkProvider ----------

  /** What the verified Firebase token says. */
  datatype Token = Token(uid: string, email: Option<string>, appleIdentity: Option<string>)

  datatype Refusal = UserNotFound | SameProvider | HasProvider | NoAppleIdentity | TakenByOther | LinkedElsewhere
                   | KeyTaken | BothSubscribed | AlreadyMapped

  datatype Outcome = LinkedTo(secondary: UserId) | WasLinkedTo(secondary: UserId) | Refused(why: Refusal)

  predicate HasProviderType(u: User, provider: Provider) {
    match provider
    case Apple => u.appleUserId.Some? || u.provider == Apple
    case Google => u.googleUserId.Some? || u.provider == Google
  }

  ghost predicate UniqueKeys(users: map<UserId, User>) {
    forall a, b :: a in users && b in users && a != b ==>
      && users[a].email != users[b].email
      && (users[a].firebaseUid.Some? ==> users[a].firebaseUid != users[b].firebaseUid)
      && (users[a].appleUserId.Some? ==> users[a].appleUserId != users[b].appleUserId)
      && (users[a].googleUserId.Some? ==> users[a].googleUserId != users[b].googleUserId)
  }

  /** findUnique by one of the three keys. */
  ghost predicate Looks(users: map<UserId, User>, matches: User -> bool, found: Option<UserId>) {
    if found.Some? then found.value in users && matches(users[found.value])
    else forall u :: u in users ==> !matches(users[u])
  }

  function HasFirebaseUid(uid: string): User -> bool {
    (u: User) => u.firebaseUid == Some(uid)
  }

  function HasAppleId(appleId: string): User -> bool {
    (u: User) => u.appleUserId == Some(appleId)
  }

  function HasEmail(email: string): User -> bool {
    (u: User) => u.email == email
  }

  /** The three look-ups for an existing secondary user; the second may find the caller itself. */
  ghost predicate FindsSecondary(users: map<UserId, User>, p: UserId, provider: Provider, token: Token,
                                 found: Option<UserId>) {
    exists byUid: Option<UserId>, byApple: Option<UserId>, byEmail: Option<UserId> ::
      && Looks(users, HasFirebaseUid(token.uid), byUid)
      && (if token.appleIdentity.Some? then Looks(users, HasAppleId(token.appleIdentity.value), byApple)
          else byApple.None?)
      && (if token.email.Some? then Looks(users, HasEmail(token.email.value), byEmail) else byEmail.None?)
      && found == FirstFound(p, provider, byUid, byApple, byEmail)
  }

  function FirstFound(p: UserId, provider: Provider, byUid: Option<UserId>, byApple: Option<UserId>,
                      byEmail: Option<UserId>): Option<UserId> {
    if byUid.Some? && byUid.value != p then byUid
    else if provider == Apple && byApple.Some? then byApple
    else if byEmail.Some? && byEmail.value != p then byEmail
    else None
  }

  function NewUser(users: map<UserId, User>, p: UserId, provider: Provider, token: Token): User
    requires p in users
  {
    User(provider,
         if users[p].firebaseUid != Some(token.uid) then Some(token.uid) else None,
         if provider == Apple then token.appleIdentity else None,
         None,
         if token.email.Some? then token.email.value else token.uid + "@linked.keenvpn.com")
  }

  /** The secondary user and the users table with it: found, created, or, if the new row collides, found by email. */
  ghost predicate ResolvesSecondary(users: map<UserId, User>, p: UserId, provider: Provider, token: Token,
                                    newId: UserId, users': map<UserId, User>, s: UserId) {
    && p in users
    && exists found: Option<UserId> ::
         && FindsSecondary(users, p, provider, token, found)
         && if found.Some? && found.value != p then users' == users && s == found.value
            else
              && (provider == Apple ==> token.appleIdentity.Some?)
              && var created := users[newId := NewUser(users, p, provider, token)];
                 if UniqueKeys(created) then users' == created && s == newId
                 else users' == users && token.email.Some? && s != p && Looks(users, HasEmail(token.email.value), Some(s))
  }

  /** The secondary's row after it is given the identity of the provider it is linked as. Without an Apple identity in
      the token an Apple link leaves it as it is. */
  function FixedUp(users: map<UserId, User>, p: UserId, provider: Provider, token: Token, s: User): User
    requires p in users
  {
    if provider == Apple && token.appleIdentity.Some? then s.(provider := Apple, appleUserId := token.appleIdentity)
    else if provider == Google && s.provider != Google then
      s.(provider := Google,
         firebaseUid := if users[p].firebaseUid != Some(token.uid) && s.firebaseUid.None? then Some(token.uid)
                        else s.firebaseUid)
    else s
  }

  ghost predicate Touched(links: set<Link>, u: UserId) {
    exists l :: l in links && l.Touches(u)
  }

  predicate IsPair(l: Link, a: UserId, b: UserId) {
    l == Link(a, b) || l == Link(b, a)
  }

  /** The caller may look for a secondary user at all. */
  ghost predicate MayLink<D>(db: Db<D>, p: UserId, provider: Provider) {
    && p in db.users && db.users[p].provider != provider
    && forall l :: l in db.links && l.Touches(p) && l.Other(p) in db.users ==>
         !HasProviderType(db.users[l.Other(p)], provider)
  }

  /** Not two subscriptions; then the link, and a LINKED row for the one subscription there may be. `fixed` is the
      database with the secondary user's identity in place. */
  ghost predicate Joins<D>(fixed: Db<D>, db': Db<D>, p: UserId, s: UserId, now: int, primarySub: Option<SubId>,
                           secondarySub: Option<SubId>, outcome: Outcome) {
    && ActiveSubscription(fixed, p, now, primarySub) && ActiveSubscription(fixed, s, now, secondarySub)
    && if primarySub.Some? && secondarySub.Some? then db' == fixed && outcome == Refused(BothSubscribed)
       else
         var linked := fixed.(links := fixed.links + {Link(p, s)});
         match if primarySub.Some? then primarySub else secondarySub
         case None => db' == linked && outcome == LinkedTo(s)
         case Some(id) =>
           var key := Key(id, if fixed.subs[id].owner == p then s else p);
           if key in fixed.rows then db' == linked && outcome == Refused(AlreadyMapped)
           else db' == linked.(rows := fixed.rows[key := Linked]) && outcome == LinkedTo(s)
  }

  /** Everything after the secondary user is resolved: no second link, no identity of somebody else, then the join. */
  ghost predicate Finishes<D>(db: Db<D>, db': Db<D>, p: UserId, provider: Provider, token: Token, now: int,
                              resolved: map<UserId, User>, s: UserId, primarySub: Option<SubId>,
                              secondarySub: Option<SubId>, outcome: Outcome)
    requires p in resolved && s in resolved
  {
    var users := resolved[s := FixedUp(resolved, p, provider, token, resolved[s])];
    if Touched(db.links, s) then
      && db' == db.(users := resolved)
      && exists l :: l in db.links && l.Touches(s) &&
           outcome == if IsPair(l, p, s) then WasLinkedTo(s) else Refused(LinkedElsewhere)
    else if !UniqueKeys(users) then db' == db.(users := resolved) && outcome == Refused(KeyTaken)
    else Joins(db.(users := users), db', p, s, now, primarySub, secondarySub, outcome)
  }

  /** No secondary user can be resolved: one would have to be created, and cannot be. */
  ghost predicate CannotResolve(users: map<UserId, User>, p: UserId, provider: Provider, token: Token, newId: UserId,
                                why: Refusal)
    requires p in users
  {
    && (FindsSecondary(users, p, provider, token, None) || FindsSecondary(users, p, provider, token, Some(p)))
    && if provider == Apple && token.appleIdentity.None? then why == NoAppleIdentity
       else
         && why == TakenByOther
         && !UniqueKeys(users[newId := NewUser(users, p, provider, token)])
         && (token.email.Some? ==> forall u :: u in users && u != p ==> users[u].email != token.email.value)
  }

  /** One call of linkProvider. */
  ghost predicate LinkStep<D>(db: Db<D>, db': Db<D>, p: UserId, provider: Provider, token: Token, now: int,
                              newId: UserId, outcome: Outcome) {
    if p !in db.users then db' == db && outcome == Refused(UserNotFound)
    else if db.users[p].provider == provider then db' == db && outcome == Refused(SameProvider)
    else if !MayLink(db, p, provider) then db' == db && outcome == Refused(HasProvider)
    else
      || (db' == db && outcome.Refused? && CannotResolve(db.users, p, provider, token, newId, outcome.why))
      || (exists resolved: map<UserId, User>, s: UserId, primarySub: Option<SubId>, secondarySub: Option<SubId> ::
            && ResolvesSecondary(db.users, p, provider, token, newId, resolved, s)
            && p in resolved && s in resolved
            && Finishes(db, db', p, provider, token, now, resolved, s, primarySub, secondarySub, outcome))
  }

  // ---------- unlinkProvider ----------

  datatype UnlinkOutcome = UnlinkedFrom(partner: UserId) | UnlinkRefused

  ghost predicate CanUnlink<D>(db: Db<D>, u: UserId, provider: Provider, l: Link) {
    && l in db.links && l.Touches(u) && l.Other(u) in db.users && HasProviderType(db.users[l.Other(u)], provider)
  }

  /** The LINKED rows of either user on subscriptions of either user. */
  ghost predicate SharedRow<D>(db: Db<D>, a: UserId, b: UserId, k: Key) {
    && k in db.rows && db.rows[k] == Linked && k.user in {a, b}
    && k.sub in db.subs && db.subs[k.sub].owner in {a, b}
  }

  ghost predicate UnlinkStep<D>(db: Db<D>, db': Db<D>, u: UserId, provider: Provider, outcome: UnlinkOutcome) {
    match outcome
    case UnlinkedFrom(b) =>
      && u in db.users && db.users[u].provider != provider
      && exists l :: CanUnlink(db, u, provider, l) && l.Other(u) == b &&
           db' == db.(links := db.links - {l}, rows := map k | k in db.rows && !SharedRow(db, u, b, k) :: db.rows[k])
    case UnlinkRefused =>
      && db' == db
      && (u in db.users && db.users[u].provider != provider ==> forall l :: !CanUnlink(db, u, provider, l))
  }

  // ---------- The payment services' writes ----------

  /** The users linked to u. */
  function Partners(links: set<Link>, u: UserId): set<UserId> {
    set l | l in links && l.Touches(u) :: l.Other(u)
  }

  /** ensureSubscriptionUserMapping: the owner's row, then a LINKED row for each partner; rows that exist stay. */
  function Mapped(rows: map<Key, Role>, links: set<Link>, id: SubId, u: UserId): map<Key, Role> {
    (map v | v in Partners(links, u) :: Key(id, v) := Linked) + map[Key(id, u) := Owner] + rows
  }

  /** A new subscription with its OWNER row. */
  predicate CreatesSub<D(==)>(db: Db<D>, db': Db<D>, id: SubId, s: Subscription<D>) {
    && id !in db.subs && s.owner in db.users
    && db' == db.(subs := db.subs[id := s], rows := db.rows[Key(id, s.owner) := Owner])
  }

  /** Status, period and detail change; the owner and the time of creation do not. */
  predicate UpdatesSub<D(==)>(db: Db<D>, db': Db<D>, id: SubId, s: Subscription<D>) {
    && id in db.subs && s.owner == db.subs[id].owner && s.createdAt == db.subs[id].createdAt
    && db' == db.(subs := db.subs[id := s])
  }

  /** The mapping is brought up to date for the owner. */
  predicate Maps<D(==)>(db: Db<D>, db': Db<D>, id: SubId) {
    id in db.subs && db' == db.(rows := Mapped(db.rows, db.links, id, db.subs[id].owner))
  }

  /** Sign-in: a new user, or new identity columns; the provider of a user stays. */
  predicate SignsIn<D(==)>(db: Db<D>, db': Db<D>, u: UserId, user: User) {
    && (u in db.users ==> user.provider == db.users[u].provider)
    && db' == db.(users := db.users[u := user])
  }

  // ---------- The invariant ----------

  /** linked_accounts is a matching of users of different providers. */
  ghost predicate IsMatching<D>(db: Db<D>) {
    && (forall l :: l in db.links ==>
          l.primary in db.users && l.linked in db.users && db.users[l.primary].provider != db.users[l.linked].provider)
    && (forall l, m, u :: l in db.links && m in db.links && l.Touches(u) && m.Touches(u) ==> l == m)
  }

  ghost predicate AreLinked(links: set<Link>, a: UserId, b: UserId) {
    Link(a, b) in links || Link(b, a) in links
  }

  /** OWNER rows name the owner; LINKED rows name a user linked to the owner. */
  ghost predicate RowsFollowLinks<D>(db: Db<D>) {
    && (forall k :: k in db.rows ==>
          && k.sub in db.subs && k.user in db.users
          && (db.rows[k] == Owner ==> k.user == db.subs[k.sub].owner)
          && (db.rows[k] == Linked ==> AreLinked(db.links, db.subs[k.sub].owner, k.user)))
    && (forall id :: id in db.subs ==> db.subs[id].owner in db.users)
  }

  ghost predicate Inv<D>(db: Db<D>) {
    IsMatching(db) && RowsFollowLinks(db)
  }

  /** The caller knows, or the token shows, that the secondary user is of the provider it is linked as. */
  ghost predicate IdentityKnown<D>(db: Db<D>, provider: Provider, token: Token, s: UserId) {
    provider == Google || token.appleIdentity.Some? || (s in db.users && db.users[s].provider == Apple)
  }

  // ---------- Entitlement in columns ----------

  /** Access comes from an own or a mapped subscription that is active or trialing and does not end before the time asked
      for: the last instant of the period still counts. */
  lemma EntitledExactly<D>(db: Db<D>, u: UserId, t: int)
    ensures Entitled(db, u, t) <==>
              exists id :: id in db.subs && (db.subs[id].owner == u || Key(id, u) in db.rows)
                           && (db.subs[id].status == Active || db.subs[id].status == Trialing)
                           && (db.subs[id].periodEnd.Some? ==> t <= db.subs[id].periodEnd.value)
  {
    if id :| id in db.subs && (db.subs[id].owner == u || Key(id, u) in db.rows)
             && (db.subs[id].status == Active || db.subs[id].status == Trialing)
             && (db.subs[id].periodEnd.Some? ==> t <= db.subs[id].periodEnd.value)
    {
      assert Owns(db, u, t, id) || MappedTo(db, u, t, id);
    }
  }

  /** As long as the tables stay, access that there is at some time was there at every time before. */
  lemma EntitlementOnlyEnds<D>(db: Db<D>, u: UserId, now: int, later: int)
    requires now <= later && Entitled(db, u, later)
    ensures Entitled(db, u, now)
  {
    EntitledExactly(db, u, later);
    EntitledExactly(db, u, now);
  }

  // ---------- Who is linked ----------

  /** A caller with a partner of the provider, by sign-in or by id, is refused. */
  lemma SecondOfProviderIsRefused<D>(db: Db<D>, db': Db<D>, p: UserId, provider: Provider, token: Token, now: int,
                                     newId: UserId, outcome: Outcome, l: Link)
    requires p in db.users && db.users[p].provider != provider
    requires l in db.links && l.Touches(p) && l.Other(p) in db.users
    requires var partner := db.users[l.Other(p)];
             || (provider == Apple && (partner.provider == Apple || partner.appleUserId.Some?))
             || (provider == Google && (partner.provider == Google || partner.googleUserId.Some?))
    requires LinkStep(db, db', p, provider, token, now, newId, outcome)
    ensures outcome == Refused(HasProvider) && db' == db
  {
    assert HasProviderType(db.users[l.Other(p)], provider);
  }

  /** What each refusal, and the answer for a pair that is linked already, means. */
  lemma RefusalsExplained<D>(db: Db<D>, db': Db<D>, p: UserId, provider: Provider, token: Token, now: int, newId: UserId,
                             outcome: Outcome)
    requires newId !in db.users && LinkStep(db, db', p, provider, token, now, newId, outcome)
    ensures outcome == Refused(UserNotFound) <==> p !in db.users
    ensures outcome == Refused(SameProvider) <==> p in db.users && db.users[p].provider == provider
    ensures outcome == Refused(NoAppleIdentity) ==> provider == Apple && token.appleIdentity.None?
    ensures outcome == Refused(LinkedElsewhere) ==>
              exists l, s :: l in db.links && l.Touches(s) && l != Link(p, s) && l != Link(s, p)
    ensures outcome.WasLinkedTo? ==> AreLinked(db.links, p, outcome.secondary)
    ensures outcome == Refused(BothSubscribed) ==> exists s :: s != p && Entitled(db', p, now) && Entitled(db', s, now)
    ensures outcome.WasLinkedTo? || outcome.Refused? ==>
              db'.subs == db.subs && db'.rows == db.rows && (outcome == Refused(AlreadyMapped) || db'.links == db.links)
  {
    if resolved: map<UserId, User>, s: UserId, primarySub: Option<SubId>, secondarySub: Option<SubId> :|
      && MayLink(db, p, provider) && ResolvesSecondary(db.users, p, provider, token, newId, resolved, s)
      && p in resolved && s in resolved
      && Finishes(db, db', p, provider, token, now, resolved, s, primarySub, secondarySub, outcome)
    {
      ResolvedUsers(db.users, p, provider, token, newId, resolved, s);
      FinishExplained(db, db', p, provider, token, now, resolved, s, primarySub, secondarySub, outcome);
    }
  }

  lemma FinishExplained<D>(db: Db<D>, db': Db<D>, p: UserId, provider: Provider, token: Token, now: int,
                           resolved: map<UserId, User>, s: UserId, primarySub: Option<SubId>,
                           secondarySub: Option<SubId>, outcome: Outcome)
    requires p in resolved && s in resolved
    requires Finishes(db, db', p, provider, token, now, resolved, s, primarySub, secondarySub, outcome)
    ensures !outcome.Refused? || outcome.why in {LinkedElsewhere, KeyTaken, BothSubscribed, AlreadyMapped}
    ensures outcome == Refused(LinkedElsewhere) ==>
              exists l :: l in db.links && l.Touches(s) && l != Link(p, s) && l != Link(s, p)
    ensures outcome.WasLinkedTo? ==> AreLinked(db.links, p, outcome.secondary)
    ensures outcome == Refused(BothSubscribed) ==> Entitled(db', p, now) && Entitled(db', s, now)
    ensures outcome.WasLinkedTo? || outcome.Refused? ==>
              db'.subs == db.subs && db'.rows == db.rows && (outcome == Refused(AlreadyMapped) || db'.links == db.links)
  {
  }

  /** Only a partner of the provider, by sign-in or by id, is unlinked. */
  lemma UnlinkedIsOfProvider<D>(db: Db<D>, db': Db<D>, u: UserId, provider: Provider, b: UserId)
    requires UnlinkStep(db, db', u, provider, UnlinkedFrom(b))
    ensures AreLinked(db.links, u, b) && b in db.users
    ensures provider == Apple ==> db.users[b].provider == Apple || db.users[b].appleUserId.Some?
    ensures provider == Google ==> db.users[b].provider == Google || db.users[b].googleUserId.Some?
  {
  }

  /** Unlinking removes LINKED rows of the two users on subscriptions of the two users, and no other row. */
  lemma UnlinkLeavesOtherRows<D>(db: Db<D>, db': Db<D>, u: UserId, provider: Provider, b: UserId, k: Key)
    requires UnlinkStep(db, db', u, provider, UnlinkedFrom(b))
    ensures k in db'.rows <==>
              k in db.rows && !(db.rows[k] == Linked && (k.user == u || k.user == b) && k.sub in db.subs
                                && (db.subs[k.sub].owner == u || db.subs[k.sub].owner == b))
    ensures k in db'.rows ==> db'.rows[k] == db.rows[k]
    ensures db'.users == db.users && db'.subs == db.subs
  {
  }

  /** The secondary user is the one with the token's uid; else, for Apple, the one with its Apple identity; else the one
      with its email. The caller does not count, except by Apple identity. */
  lemma SecondaryIsFound(users: map<UserId, User>, p: UserId, provider: Provider, token: Token, found: Option<UserId>)
    requires UniqueKeys(users) && FindsSecondary(users, p, provider, token, found)
    ensures forall s :: s in users && s != p && users[s].firebaseUid == Some(token.uid) ==> found == Some(s)
    ensures !HasUid(users, p, token.uid) ==>
              forall s :: (s in users && provider == Apple && token.appleIdentity.Some?
                           && users[s].appleUserId == token.appleIdentity) ==> found == Some(s)
    ensures !HasUid(users, p, token.uid) && !(provider == Apple && HasIdentity(users, token)) ==>
              forall s :: s in users && s != p && token.email == Some(users[s].email) ==> found == Some(s)
    ensures found.Some? ==>
              && found.value in users
              && var s := users[found.value];
                 || s.firebaseUid == Some(token.uid) || (provider == Apple && s.appleUserId == token.appleIdentity)
                 || token.email == Some(s.email)
  {
  }

  ghost predicate HasUid(users: map<UserId, User>, p: UserId, uid: string) {
    exists s :: s in users && s != p && users[s].firebaseUid == Some(uid)
  }

  ghost predicate HasIdentity(users: map<UserId, User>, token: Token) {
    token.appleIdentity.Some? && exists s :: s in users && users[s].appleUserId == token.appleIdentity
  }

  /** What a fix-up leaves alone, and the one uid it fills in. */
  lemma FixUpKeepsRest(users: map<UserId, User>, p: UserId, provider: Provider, token: Token, s: User)
    requires p in users
    ensures var fixed := FixedUp(users, p, provider, token, s);
            && fixed.email == s.email && fixed.googleUserId == s.googleUserId
            && (s.firebaseUid.Some? ==> fixed.firebaseUid == s.firebaseUid)
            && (provider == Google ==> fixed.provider == Google && fixed.appleUserId == s.appleUserId)
            && (provider == Google && s.provider == Apple && s.firebaseUid.None? ==>
                  fixed.firebaseUid ==
                    if users[p].firebaseUid == Some(token.uid) then None else Some(token.uid))
            && (provider == Google && s.provider == Google ==> fixed == s)
            && (provider == Apple ==> fixed.firebaseUid == s.firebaseUid)
            && (provider == Apple && token.appleIdentity.Some? ==>
                  fixed.provider == Apple && fixed.appleUserId == token.appleIdentity)
  {
  }

  /** A user that a link has created is found again by the same token, exactly unless it is a Google link with the caller's
      own uid and no email: such a user has nothing of the token but an email made up from the uid. */
  lemma RelinkFindsCreatedUser<D>(db: Db<D>, mid: Db<D>, p: UserId, provider: Provider, token: Token, now: int,
                                  newId: UserId, found: Option<UserId>)
    requires UniqueKeys(db.users) && newId !in db.users
    requires LinkStep(db, mid, p, provider, token, now, newId, LinkedTo(newId))
    requires FindsSecondary(mid.users, p, provider, token, found)
    ensures found == Some(newId) <==>
              !(provider == Google && db.users[p].firebaseUid == Some(token.uid) && token.email.None?)
    ensures found == Some(newId) || found == None
  {
    CreatedUsers(db, mid, p, provider, token, now, newId);
    SecondaryIsFound(mid.users, p, provider, token, found);
    var s := mid.users[newId];
    if db.users[p].firebaseUid != Some(token.uid) {
      assert s.firebaseUid == Some(token.uid);
    } else if provider == Apple {
      assert s.appleUserId == token.appleIdentity;
    }
  }

  /** In that case, once it is unlinked, it cannot be linked again: another user would get the same made-up email. */
  lemma RelinkIsRefused<D>(db: Db<D>, mid: Db<D>, p: UserId, token: Token, now: int, newId: UserId, again: Db<D>,
                           db': Db<D>, later: int, nextId: UserId, outcome: Outcome)
    requires UniqueKeys(db.users) && newId !in db.users && nextId !in mid.users
    requires LinkStep(db, mid, p, Google, token, now, newId, LinkedTo(newId))
    requires db.users[p].firebaseUid == Some(token.uid) && token.email.None?
    requires again.users == mid.users && !Touched(again.links, p)
    requires LinkStep(again, db', p, Google, token, later, nextId, outcome)
    ensures outcome == Refused(TakenByOther) && db' == again
  {
    CreatedUsers(db, mid, p, Google, token, now, newId);
    var users := again.users;
    forall found: Option<UserId> | FindsSecondary(users, p, Google, token, found)
      ensures found == None
    {
      RelinkFindsCreatedUser(db, mid, p, Google, token, now, newId, found);
    }
    var created := users[nextId := NewUser(users, p, Google, token)];
    assert created[nextId].email == created[newId].email && newId != nextId;
    assert !UniqueKeys(created);
  }

  /** The users table after a link that has created its secondary user. */
  lemma CreatedUsers<D>(db: Db<D>, mid: Db<D>, p: UserId, provider: Provider, token: Token, now: int, newId: UserId)
    requires UniqueKeys(db.users) && newId !in db.users
    requires LinkStep(db, mid, p, provider, token, now, newId, LinkedTo(newId))
    ensures p in db.users && p != newId && (provider == Apple ==> token.appleIdentity.Some?)
    ensures db.users[p].provider != provider
    ensures mid.users == db.users[newId := NewUser(db.users, p, provider, token)] && UniqueKeys(mid.users)
  {
    var resolved: map<UserId, User>, s: UserId, primarySub: Option<SubId>, secondarySub: Option<SubId> :|
      && ResolvesSecondary(db.users, p, provider, token, newId, resolved, s)
      && p in resolved && s in resolved
      && Finishes(db, mid, p, provider, token, now, resolved, s, primarySub, secondarySub, LinkedTo(newId));
    LinkedUsers(db, mid, p, provider, token, now, resolved, s, primarySub, secondarySub, newId);
    CreatedIsFixedUp(db.users, p, provider, token, newId, resolved);
    CreatedRow(db.users, p, provider, token, newId, resolved);
  }

  lemma LinkedUsers<D>(db: Db<D>, mid: Db<D>, p: UserId, provider: Provider, token: Token, now: int,
                       resolved: map<UserId, User>, s: UserId, primarySub: Option<SubId>, secondarySub: Option<SubId>,
                       linked: UserId)
    requires p in resolved && s in resolved
    requires Finishes(db, mid, p, provider, token, now, resolved, s, primarySub, secondarySub, LinkedTo(linked))
    ensures linked == s && mid.users == resolved[s := FixedUp(resolved, p, provider, token, resolved[s])]
  {
  }

  lemma CreatedRow(users: map<UserId, User>, p: UserId, provider: Provider, token: Token, newId: UserId,
                   resolved: map<UserId, User>)
    requires newId !in users && ResolvesSecondary(users, p, provider, token, newId, resolved, newId)
    ensures p in users && p != newId && (provider == Apple ==> token.appleIdentity.Some?)
    ensures resolved == users[newId := NewUser(users, p, provider, token)] && UniqueKeys(resolved)
  {
    ResolvedUsers(users, p, provider, token, newId, resolved, newId);
    assert newId in resolved;
  }

  // ---------- Linking ----------

  /** Under the invariant a user without a link is mapped to nothing but own subscriptions. */
  lemma EntitledIsOwning<D>(db: Db<D>, u: UserId, now: int)
    requires Inv(db) && !Touched(db.links, u)
    ensures Entitled(db, u, now) <==> OwnsAny(db, u, now)
  {
    forall id | MappedTo(db, u, now, id)
      ensures Owns(db, u, now, id)
    {
      if db.rows[Key(id, u)] == Linked {
        var o := db.subs[id].owner;
        var l := if Link(o, u) in db.links then Link(o, u) else Link(u, o);
        assert l.Touches(u);
      }
    }
  }

  lemma UnlinkedUserOwnsAll<D>(db: Db<D>, u: UserId, now: int, found: Option<SubId>)
    requires Inv(db) && !Touched(db.links, u) && ActiveSubscription(db, u, now, found)
    ensures Entitled(db, u, now) <==> OwnsAny(db, u, now)
    ensures found.Some? <==> OwnsAny(db, u, now)
    ensures found.Some? ==> NewestOwned(db, u, now, found.value)
  {
    EntitledIsOwning(db, u, now);
  }

  /** Users added or fixed up without touching a linked user's provider keep the invariant. */
  lemma UserChangesKeepInv<D>(db: Db<D>, users: map<UserId, User>)
    requires Inv(db) && db.users.Keys <= users.Keys
    requires forall u :: u in db.users && Touched(db.links, u) ==> users[u].provider == db.users[u].provider
    ensures Inv(db.(users := users))
  {
    forall l | l in db.links
      ensures l.primary in users && l.linked in users && users[l.primary].provider != users[l.linked].provider
    {
      assert l.Touches(l.primary) && l.Touches(l.linked);
    }
  }

  /** A caller with a link does not pass the guards: its partner is of the other provider. */
  lemma LinkedCallerMayNotLink<D>(db: Db<D>, p: UserId, provider: Provider)
    requires Inv(db) && p in db.users && db.users[p].provider != provider && Touched(db.links, p)
    ensures !MayLink(db, p, provider)
  {
    var l :| l in db.links && l.Touches(p);
    assert db.users[l.Other(p)].provider != db.users[p].provider;
  }

  /** What a link does, under the invariant: two users without links get a link, and the subscription that one of them
      owns, if any, gets a row for the other. */
  ghost predicate NewLink<D>(db: Db<D>, db': Db<D>, p: UserId, s: UserId, now: int, shared: Option<SubId>) {
    && p != s && p in db'.users && s in db'.users && db.users.Keys <= db'.users.Keys
    && (forall u :: u in db.users && u != s ==> db'.users[u] == db.users[u])
    && !Touched(db.links, p) && !Touched(db.links, s)
    && db'.links == db.links + {Link(p, s)} && db'.subs == db.subs
    && !(OwnsAny(db, p, now) && OwnsAny(db, s, now))
    && match shared
       case None => db'.rows == db.rows && !OwnsAny(db, p, now) && !OwnsAny(db, s, now)
       case Some(id) =>
         && (Owns(db, p, now, id) || Owns(db, s, now, id))
         && var k := Key(id, if db.subs[id].owner == p then s else p);
            k !in db.rows && db'.rows == db.rows[k := Linked]
  }

  /** Under the invariant linkProvider either links as NewLink says, or changes users only. In particular the two outcomes
      that would leave half a link behind never occur. */
  lemma LinkOutcomes<D>(db: Db<D>, db': Db<D>, p: UserId, provider: Provider, token: Token, now: int, newId: UserId,
                        outcome: Outcome) returns (shared: Option<SubId>)
    requires Inv(db) && newId !in db.users && LinkStep(db, db', p, provider, token, now, newId, outcome)
    ensures outcome.LinkedTo? || outcome.Refused?
    ensures outcome.LinkedTo? ==>
              && NewLink(db, db', p, outcome.secondary, now, shared)
              && db.users[p].provider != provider
              && (db'.users[outcome.secondary].provider == provider <==> IdentityKnown(db, provider, token, outcome.secondary))
              && (provider == Apple && token.appleIdentity.Some? ==>
                    db'.users[outcome.secondary].appleUserId == token.appleIdentity)
    ensures outcome.Refused? ==> outcome.why != AlreadyMapped && Inv(db') && db' == db.(users := db'.users)
    ensures UniqueKeys(db.users) ==> UniqueKeys(db'.users)
  {
    shared := None;
    if p in db.users && db.users[p].provider != provider && MayLink(db, p, provider) {
      if Touched(db.links, p) {
        LinkedCallerMayNotLink(db, p, provider);
      }
      if !(db' == db && outcome.Refused? && CannotResolve(db.users, p, provider, token, newId, outcome.why)) {
        var resolved: map<UserId, User>, s: UserId, primarySub: Option<SubId>, secondarySub: Option<SubId> :|
          && ResolvesSecondary(db.users, p, provider, token, newId, resolved, s)
          && p in resolved && s in resolved
          && Finishes(db, db', p, provider, token, now, resolved, s, primarySub, secondarySub, outcome);
        ResolvedUsers(db.users, p, provider, token, newId, resolved, s);
        shared := if primarySub.Some? then primarySub else secondarySub;
        FinishOutcomes(db, db', p, provider, token, now, resolved, s, primarySub, secondarySub, outcome);
      }
    }
  }

  lemma FoundIsUser(users: map<UserId, User>, p: UserId, provider: Provider, token: Token, found: Option<UserId>)
    requires FindsSecondary(users, p, provider, token, found)
    ensures found.Some? ==> found.value in users
  {
  }

  lemma ResolvedUsers(users: map<UserId, User>, p: UserId, provider: Provider, token: Token, newId: UserId,
                      resolved: map<UserId, User>, s: UserId)
    requires newId !in users && ResolvesSecondary(users, p, provider, token, newId, resolved, s)
    ensures s != p && s in resolved && users.Keys <= resolved.Keys && (if s in users then resolved == users else s == newId)
    ensures forall u :: u in users ==> resolved[u] == users[u]
    ensures s !in users ==> s == newId && resolved[s].provider == provider
                            && (provider == Apple ==> token.appleIdentity.Some?)
    ensures UniqueKeys(users) ==> UniqueKeys(resolved)
  {
    var found: Option<UserId> :|
      && FindsSecondary(users, p, provider, token, found)
      && if found.Some? && found.value != p then resolved == users && s == found.value
         else
           && (provider == Apple ==> token.appleIdentity.Some?)
           && var created := users[newId := NewUser(users, p, provider, token)];
              if UniqueKeys(created) then resolved == created && s == newId
              else resolved == users && token.email.Some? && s != p
                   && Looks(users, HasEmail(token.email.value), Some(s));
    FoundIsUser(users, p, provider, token, found);
  }

  /** What is known of the resolved users table: only a secondary user of the right provider is new. */
  ghost predicate GoodResolution<D>(db: Db<D>, p: UserId, provider: Provider, token: Token,
                                    resolved: map<UserId, User>, s: UserId) {
    && p in db.users && db.users[p].provider != provider && !Touched(db.links, p) && p != s
    && s in resolved && db.users.Keys <= resolved.Keys && (forall u :: u in db.users ==> resolved[u] == db.users[u])
    && (s !in db.users ==> resolved[s].provider == provider && (provider == Apple ==> token.appleIdentity.Some?))
  }

  lemma FinishOutcomes<D>(db: Db<D>, db': Db<D>, p: UserId, provider: Provider, token: Token, now: int,
                          resolved: map<UserId, User>, s: UserId, primarySub: Option<SubId>,
                          secondarySub: Option<SubId>, outcome: Outcome)
    requires Inv(db) && GoodResolution(db, p, provider, token, resolved, s)
    requires Finishes(db, db', p, provider, token, now, resolved, s, primarySub, secondarySub, outcome)
    ensures outcome.LinkedTo? || outcome.Refused?
    ensures outcome.LinkedTo? ==>
              && outcome.secondary == s
              && NewLink(db, db', p, s, now, if primarySub.Some? then primarySub else secondarySub)
              && db'.users[s] == FixedUp(resolved, p, provider, token, resolved[s])
              && (db'.users[s].provider == provider <==> IdentityKnown(db, provider, token, s))
    ensures outcome.Refused? ==> outcome.why != AlreadyMapped && Inv(db') && db' == db.(users := db'.users)
    ensures UniqueKeys(resolved) ==> UniqueKeys(db'.users)
  {
    var users := resolved[s := FixedUp(resolved, p, provider, token, resolved[s])];
    if Touched(db.links, s) {
      TouchedSecondary(db, p, s);
      UserChangesKeepInv(db, resolved);
    } else if UniqueKeys(users) {
      FixedUpJoins(db, db', p, provider, token, now, resolved, users, s, primarySub, secondarySub, outcome);
    } else {
      UserChangesKeepInv(db, resolved);
    }
  }

  lemma FixedUpJoins<D>(db: Db<D>, db': Db<D>, p: UserId, provider: Provider, token: Token, now: int,
                        resolved: map<UserId, User>, users: map<UserId, User>, s: UserId, primarySub: Option<SubId>,
                        secondarySub: Option<SubId>, outcome: Outcome)
    requires Inv(db) && GoodResolution(db, p, provider, token, resolved, s) && !Touched(db.links, s)
    requires users == resolved[s := FixedUp(resolved, p, provider, token, resolved[s])]
    requires Joins(db.(users := users), db', p, s, now, primarySub, secondarySub, outcome)
    ensures outcome == LinkedTo(s) || outcome == Refused(BothSubscribed)
    ensures db'.users == users && (users[s].provider == provider <==> IdentityKnown(db, provider, token, s))
    ensures outcome.LinkedTo? ==> NewLink(db, db', p, s, now, if primarySub.Some? then primarySub else secondarySub)
    ensures outcome.Refused? ==> Inv(db') && db' == db.(users := users)
  {
    FixUpKnowsProvider(db, p, provider, token, resolved, s);
    UserChangesKeepInv(db, users);
    JoinOutcomes(db, db.(users := users), db', p, s, now, primarySub, secondarySub, outcome);
  }

  lemma FixUpKnowsProvider<D>(db: Db<D>, p: UserId, provider: Provider, token: Token, resolved: map<UserId, User>,
                              s: UserId)
    requires GoodResolution(db, p, provider, token, resolved, s)
    ensures FixedUp(resolved, p, provider, token, resolved[s]).provider == provider <==>
              IdentityKnown(db, provider, token, s)
  {
  }

  lemma TouchedSecondary<D>(db: Db<D>, p: UserId, s: UserId)
    requires !Touched(db.links, p)
    ensures forall l :: l in db.links && l.Touches(s) ==> !IsPair(l, p, s)
  {
    forall l | l in db.links && l.Touches(s)
      ensures !IsPair(l, p, s)
    {
      assert IsPair(l, p, s) ==> l.Touches(p);
    }
  }

  lemma JoinOutcomes<D>(db: Db<D>, fixed: Db<D>, db': Db<D>, p: UserId, s: UserId, now: int,
                        primarySub: Option<SubId>, secondarySub: Option<SubId>, outcome: Outcome)
    requires Inv(db) && Inv(fixed) && fixed == db.(users := fixed.users) && p != s
    requires p in fixed.users && s in fixed.users && db.users.Keys <= fixed.users.Keys
    requires forall u :: u in db.users && u != s ==> fixed.users[u] == db.users[u]
    requires !Touched(db.links, p) && !Touched(db.links, s)
    requires Joins(fixed, db', p, s, now, primarySub, secondarySub, outcome)
    ensures outcome == LinkedTo(s) || outcome == Refused(BothSubscribed)
    ensures db'.users == fixed.users
    ensures outcome.LinkedTo? ==> NewLink(db, db', p, s, now, if primarySub.Some? then primarySub else secondarySub)
    ensures outcome.Refused? ==> db' == fixed
  {
    SubsOfUnlinked(db, fixed, p, s, now, primarySub, secondarySub);
  }

  /** What the two subscription look-ups find for two users without links. */
  lemma SubsOfUnlinked<D>(db: Db<D>, fixed: Db<D>, p: UserId, s: UserId, now: int, primarySub: Option<SubId>,
                          secondarySub: Option<SubId>)
    requires Inv(db) && Inv(fixed) && fixed == db.(users := fixed.users) && p != s
    requires !Touched(db.links, p) && !Touched(db.links, s)
    requires ActiveSubscription(fixed, p, now, primarySub) && ActiveSubscription(fixed, s, now, secondarySub)
    ensures primarySub.Some? <==> OwnsAny(db, p, now)
    ensures secondarySub.Some? <==> OwnsAny(db, s, now)
    ensures primarySub.Some? ==> Owns(db, p, now, primarySub.value) && Key(primarySub.value, s) !in db.rows
    ensures secondarySub.Some? ==> Owns(db, s, now, secondarySub.value) && Key(secondarySub.value, p) !in db.rows
  {
    UnlinkedUserOwnsAll(fixed, p, now, primarySub);
    UnlinkedUserOwnsAll(fixed, s, now, secondarySub);
    SameSubsSameOwners(db, fixed, p, now);
    SameSubsSameOwners(db, fixed, s, now);
    if primarySub.Some? {
      UnlinkedIsNotMapped(db, Key(primarySub.value, s), p, s);
    }
    if secondarySub.Some? {
      UnlinkedIsNotMapped(db, Key(secondarySub.value, p), p, s);
    }
  }

  lemma SameSubsSameOwners<D>(db: Db<D>, db': Db<D>, u: UserId, now: int)
    requires db'.subs == db.subs
    ensures OwnsAny(db', u, now) <==> OwnsAny(db, u, now)
    ensures forall id :: Owns(db', u, now, id) <==> Owns(db, u, now, id)
  {
    forall id
      ensures Owns(db', u, now, id) <==> Owns(db, u, now, id)
    {
    }
  }

  /** No row maps an unlinked user to somebody else's subscription. */
  lemma UnlinkedIsNotMapped<D>(db: Db<D>, k: Key, p: UserId, s: UserId)
    requires Inv(db) && p != s && k.sub in db.subs && db.subs[k.sub].owner in {p, s}
    requires k.user == (if db.subs[k.sub].owner == p then s else p)
    requires !Touched(db.links, p) && !Touched(db.links, s)
    ensures k !in db.rows
  {
    if k in db.rows && db.rows[k] == Linked {
      var o := db.subs[k.sub].owner;
      var l := if Link(o, k.user) in db.links then Link(o, k.user) else Link(k.user, o);
      assert l.Touches(o);
    }
  }

  /** A link keeps the invariant exactly when the secondary's provider is known to be the one it is linked as: with an
      Apple token that carries no Apple identity, two Google users can be linked. */
  lemma LinkKeepsInv<D>(db: Db<D>, db': Db<D>, p: UserId, provider: Provider, token: Token, now: int, newId: UserId,
                        outcome: Outcome)
    requires Inv(db) && newId !in db.users && LinkStep(db, db', p, provider, token, now, newId, outcome)
    ensures outcome.LinkedTo? ==> (Inv(db') <==> IdentityKnown(db, provider, token, outcome.secondary))
    ensures !outcome.LinkedTo? ==> Inv(db')
  {
    var shared := LinkOutcomes(db, db', p, provider, token, now, newId, outcome);
    if outcome.LinkedTo? {
      var s := outcome.secondary;
      assert Link(p, s) in db'.links;
      if db'.users[s].provider == provider {
        NewLinkKeepsInv(db, db', p, s, now, shared);
      }
    }
  }

  /** What a caller can see before the call: the secondary user s exists and has no link, both users own an active
      subscription, and s would be given another identity, one that nobody else has. */
  ghost predicate LeavesTrace<D>(db: Db<D>, p: UserId, provider: Provider, token: Token, now: int, newId: UserId,
                                 s: UserId) {
    && MayLink(db, p, provider) && s in db.users && ResolvesSecondary(db.users, p, provider, token, newId, db.users, s)
    && !Touched(db.links, s) && OwnsAny(db, p, now) && OwnsAny(db, s, now)
    && var fixed := FixedUp(db.users, p, provider, token, db.users[s]);
       fixed != db.users[s] && UniqueKeys(db.users[s := fixed])
  }

  /** A link that is refused changes something exactly when LeavesTrace holds before the call; what it changes is the
      identity of the secondary user, and the refusal is for two subscriptions. */
  lemma RefusedLinkLeavesIdentity<D>(db: Db<D>, db': Db<D>, p: UserId, provider: Provider, token: Token, now: int,
                                     newId: UserId, outcome: Outcome)
    requires Inv(db) && UniqueKeys(db.users) && newId !in db.users
    requires LinkStep(db, db', p, provider, token, now, newId, outcome)
    ensures outcome.Refused? && db' != db <==> exists s :: LeavesTrace(db, p, provider, token, now, newId, s)
    ensures forall s :: LeavesTrace(db, p, provider, token, now, newId, s) ==>
              && outcome == Refused(BothSubscribed)
              && db' == db.(users := db.users[s := FixedUp(db.users, p, provider, token, db.users[s])])
  {
    if resolved: map<UserId, User>, s: UserId, primarySub: Option<SubId>, secondarySub: Option<SubId> :|
      && MayLink(db, p, provider) && ResolvesSecondary(db.users, p, provider, token, newId, resolved, s)
      && p in resolved && s in resolved
      && Finishes(db, db', p, provider, token, now, resolved, s, primarySub, secondarySub, outcome)
    {
      OutcomeAfterResolution(db, db', p, provider, token, now, newId, resolved, s, primarySub, secondarySub, outcome);
      forall q | LeavesTrace(db, p, provider, token, now, newId, q)
        ensures q == s && resolved == db.users
      {
        ResolvesOnce(db.users, p, provider, token, newId, resolved, s, db.users, q);
      }
    } else {
      forall s
        ensures !LeavesTrace(db, p, provider, token, now, newId, s)
      {
        if LeavesTrace(db, p, provider, token, now, newId, s) {
          ResolvesOrNot(db.users, p, provider, token, newId, db.users, s, outcome.why);
        }
      }
    }
  }

  /** Once the secondary user is resolved, the call leaves a trace and refuses exactly as LeavesTrace says. */
  lemma OutcomeAfterResolution<D>(db: Db<D>, db': Db<D>, p: UserId, provider: Provider, token: Token, now: int,
                                  newId: UserId, resolved: map<UserId, User>, s: UserId, primarySub: Option<SubId>,
                                  secondarySub: Option<SubId>, outcome: Outcome)
    requires Inv(db) && newId !in db.users && MayLink(db, p, provider) && p in resolved && s in resolved
    requires ResolvesSecondary(db.users, p, provider, token, newId, resolved, s)
    requires Finishes(db, db', p, provider, token, now, resolved, s, primarySub, secondarySub, outcome)
    ensures outcome.Refused? && db' != db ==> LeavesTrace(db, p, provider, token, now, newId, s)
    ensures LeavesTrace(db, p, provider, token, now, newId, s) && resolved == db.users ==>
              && outcome == Refused(BothSubscribed) && db' != db
              && db' == db.(users := db.users[s := FixedUp(db.users, p, provider, token, db.users[s])])
  {
    if Touched(db.links, p) {
      LinkedCallerMayNotLink(db, p, provider);
    }
    ResolvedUsers(db.users, p, provider, token, newId, resolved, s);
    if s in db.users {
      ExistingSecondary(db, db', p, provider, token, now, s, primarySub, secondarySub, outcome);
    } else {
      CreatedSecondary(db, db', p, provider, token, now, newId, resolved, primarySub, secondarySub, outcome);
    }
  }

  /** A link to a new user is never refused. */
  lemma CreatedSecondary<D>(db: Db<D>, db': Db<D>, p: UserId, provider: Provider, token: Token, now: int, newId: UserId,
                            resolved: map<UserId, User>, primarySub: Option<SubId>, secondarySub: Option<SubId>,
                            outcome: Outcome)
    requires Inv(db) && newId !in db.users && p in db.users && !Touched(db.links, p) && p in resolved && newId in resolved
    requires ResolvesSecondary(db.users, p, provider, token, newId, resolved, newId)
    requires Finishes(db, db', p, provider, token, now, resolved, newId, primarySub, secondarySub, outcome)
    ensures outcome.LinkedTo?
  {
    var created := db.(users := resolved);
    ResolvedUsers(db.users, p, provider, token, newId, resolved, newId);
    CreatedIsFixedUp(db.users, p, provider, token, newId, resolved);
    if Touched(db.links, newId) {
      TouchedAreUsers(db, newId);
    }
    UserChangesKeepInv(db, resolved);
    NewUserHasNothing(db, created, newId, now, secondarySub);
    SubsOfUnlinked(db, created, p, newId, now, primarySub, secondarySub);
  }

  lemma ExistingSecondary<D>(db: Db<D>, db': Db<D>, p: UserId, provider: Provider, token: Token, now: int, s: UserId,
                             primarySub: Option<SubId>, secondarySub: Option<SubId>, outcome: Outcome)
    requires Inv(db) && p in db.users && s in db.users && p != s && !Touched(db.links, p)
    requires Finishes(db, db', p, provider, token, now, db.users, s, primarySub, secondarySub, outcome)
    ensures var fixed := FixedUp(db.users, p, provider, token, db.users[s]);
            var users := db.users[s := fixed];
            if !Touched(db.links, s) && OwnsAny(db, p, now) && OwnsAny(db, s, now)
               && fixed != db.users[s] && UniqueKeys(users)
            then outcome == Refused(BothSubscribed) && db' == db.(users := users) && db' != db
            else outcome.Refused? ==> db' == db
  {
    var fixed := FixedUp(db.users, p, provider, token, db.users[s]);
    var users := db.users[s := fixed];
    assert db.(users := db.users) == db;
    assert users[s] == fixed;
    if fixed == db.users[s] {
      assert users == db.users;
    }
    if !Touched(db.links, s) && UniqueKeys(users) {
      UserChangesKeepInv(db, users);
      SubsOfUnlinked(db, db.(users := users), p, s, now, primarySub, secondarySub);
    }
  }

  /** findUnique finds at most one row. */
  lemma LooksOnce(users: map<UserId, User>, matches: User -> bool, a: Option<UserId>, b: Option<UserId>)
    requires Looks(users, matches, a) && Looks(users, matches, b)
    requires forall u, v :: u in users && v in users && matches(users[u]) && matches(users[v]) ==> u == v
    ensures a == b
  {
  }

  lemma FindsOnce(users: map<UserId, User>, p: UserId, provider: Provider, token: Token, a: Option<UserId>,
                  b: Option<UserId>)
    requires UniqueKeys(users)
    requires FindsSecondary(users, p, provider, token, a) && FindsSecondary(users, p, provider, token, b)
    ensures a == b
  {
    var uid1: Option<UserId>, apple1: Option<UserId>, email1: Option<UserId> :|
      && Looks(users, HasFirebaseUid(token.uid), uid1)
      && (if token.appleIdentity.Some? then Looks(users, HasAppleId(token.appleIdentity.value), apple1) else apple1.None?)
      && (if token.email.Some? then Looks(users, HasEmail(token.email.value), email1) else email1.None?)
      && a == FirstFound(p, provider, uid1, apple1, email1);
    var uid2: Option<UserId>, apple2: Option<UserId>, email2: Option<UserId> :|
      && Looks(users, HasFirebaseUid(token.uid), uid2)
      && (if token.appleIdentity.Some? then Looks(users, HasAppleId(token.appleIdentity.value), apple2) else apple2.None?)
      && (if token.email.Some? then Looks(users, HasEmail(token.email.value), email2) else email2.None?)
      && b == FirstFound(p, provider, uid2, apple2, email2);
    LooksOnce(users, HasFirebaseUid(token.uid), uid1, uid2);
    if token.appleIdentity.Some? {
      LooksOnce(users, HasAppleId(token.appleIdentity.value), apple1, apple2);
    }
    if token.email.Some? {
      LooksOnce(users, HasEmail(token.email.value), email1, email2);
    }
  }

  lemma ResolvesOnce(users: map<UserId, User>, p: UserId, provider: Provider, token: Token, newId: UserId,
                     users1: map<UserId, User>, s1: UserId, users2: map<UserId, User>, s2: UserId)
    requires UniqueKeys(users) && p in users
    requires ResolvesSecondary(users, p, provider, token, newId, users1, s1)
    requires ResolvesSecondary(users, p, provider, token, newId, users2, s2)
    ensures users1 == users2 && s1 == s2
  {
    forall a: Option<UserId>, b: Option<UserId> |
      FindsSecondary(users, p, provider, token, a) && FindsSecondary(users, p, provider, token, b)
      ensures a == b
    {
      FindsOnce(users, p, provider, token, a, b);
    }
    if token.email.Some? && Looks(users, HasEmail(token.email.value), Some(s1))
       && Looks(users, HasEmail(token.email.value), Some(s2)) {
      LooksOnce(users, HasEmail(token.email.value), Some(s1), Some(s2));
    }
  }

  lemma ResolvesOrNot(users: map<UserId, User>, p: UserId, provider: Provider, token: Token, newId: UserId,
                      users': map<UserId, User>, s: UserId, why: Refusal)
    requires UniqueKeys(users) && newId !in users && p in users
    requires ResolvesSecondary(users, p, provider, token, newId, users', s)
    ensures !CannotResolve(users, p, provider, token, newId, why)
  {
    if CannotResolve(users, p, provider, token, newId, why) {
      var none: Option<UserId> :| (none == None || none == Some(p)) && FindsSecondary(users, p, provider, token, none);
      var found: Option<UserId> :|
        && FindsSecondary(users, p, provider, token, found)
        && if found.Some? && found.value != p then users' == users && s == found.value
           else
             && (provider == Apple ==> token.appleIdentity.Some?)
             && var created := users[newId := NewUser(users, p, provider, token)];
                if UniqueKeys(created) then users' == created && s == newId
                else users' == users && token.email.Some? && s != p
                     && Looks(users, HasEmail(token.email.value), Some(s));
      FindsOnce(users, p, provider, token, none, found);
    }
  }

  /** From every such state there is such a call. */
  lemma TraceIsLeft<D>(db: Db<D>, p: UserId, provider: Provider, token: Token, now: int, newId: UserId, s: UserId,
                       primarySub: SubId, secondarySub: SubId) returns (db': Db<D>)
    requires LeavesTrace(db, p, provider, token, now, newId, s)
    requires NewestOwned(db, p, now, primarySub) && NewestOwned(db, s, now, secondarySub)
    ensures LinkStep(db, db', p, provider, token, now, newId, Refused(BothSubscribed)) && db' != db
  {
    var fixed := FixedUp(db.users, p, provider, token, db.users[s]);
    db' := db.(users := db.users[s := fixed]);
    assert db'.users[s] != db.users[s];
    SameSubsSameOwners(db, db', p, now);
    SameSubsSameOwners(db, db', s, now);
    assert NewestOwned(db', p, now, primarySub) && NewestOwned(db', s, now, secondarySub);
    assert Finishes(db, db', p, provider, token, now, db.users, s, Some(primarySub), Some(secondarySub),
                    Refused(BothSubscribed));
  }

  /** A family of such states: two Google users, both subscribed, and a token that shows an Apple identity of the second. */
  lemma RefusedLinkChangesUser<D>(users: map<UserId, User>, p: UserId, s: UserId, token: Token, detail: D, now: int,
                                  newId: UserId) returns (db: Db<D>, db': Db<D>)
    requires users.Keys == {p, s} && p != s && TwoGoogleUsers(users, p, s)
    requires users[s].firebaseUid == Some(token.uid) && token.appleIdentity.Some? && token.email.None?
    ensures Inv(db) && UniqueKeys(db.users) && db.users == users
    ensures LinkStep(db, db', p, Apple, token, now, newId, Refused(BothSubscribed)) && db' != db
  {
    db := TwoSubscribers(users, p, s, detail, now);
    TwoUsersDiffer(users, p, s);
    TwoUsersDiffer(users[s := FixedUp(users, p, Apple, token, users[s])], p, s);
    FindsByUid(users, p, s, token);
    assert ResolvesSecondary(db.users, p, Apple, token, newId, db.users, s);
    db' := TraceIsLeft(db, p, Apple, token, now, newId, s, 0, 1);
  }

  ghost predicate TwoGoogleUsers(users: map<UserId, User>, p: UserId, s: UserId)
    requires p in users && s in users
  {
    && users[p].provider == users[s].provider == Google && users[p].appleUserId == users[s].appleUserId == None
    && users[p].googleUserId == users[s].googleUserId == None && users[p].email != users[s].email
    && users[s].firebaseUid.Some? && users[p].firebaseUid != users[s].firebaseUid
  }

  lemma TwoSubscribers<D>(users: map<UserId, User>, p: UserId, s: UserId, detail: D, now: int) returns (db: Db<D>)
    requires users.Keys == {p, s} && p != s
    ensures Inv(db) && db.users == users && db.links == {}
    ensures NewestOwned(db, p, now, 0) && NewestOwned(db, s, now, 1)
  {
    db := Db(users, {}, map[0 := Subscription(p, 0, Active, None, detail), 1 := Subscription(s, 0, Active, None, detail)],
             map[]);
  }

  lemma TwoUsersDiffer(users: map<UserId, User>, p: UserId, s: UserId)
    requires users.Keys == {p, s} && users[p].email != users[s].email
    requires users[s].firebaseUid.Some? && users[s].firebaseUid != users[p].firebaseUid
    requires users[p].appleUserId.None? && users[p].googleUserId.None? && users[s].googleUserId.None?
    ensures UniqueKeys(users)
  {
  }

  lemma FindsByUid(users: map<UserId, User>, p: UserId, s: UserId, token: Token)
    requires s in users && p != s && users[s].firebaseUid == Some(token.uid) && token.email.None?
    requires token.appleIdentity.Some? && forall u :: u in users ==> users[u].appleUserId.None?
    ensures FindsSecondary(users, p, Apple, token, Some(s))
  {
    assert Looks(users, HasFirebaseUid(token.uid), Some(s)) && Looks(users, HasAppleId(token.appleIdentity.value), None);
    assert Some(s) == FirstFound(p, Apple, Some(s), None, None);
  }

  lemma TouchedAreUsers<D>(db: Db<D>, u: UserId)
    requires Inv(db) && Touched(db.links, u)
    ensures u in db.users
  {
  }

  /** A created user needs no fix-up. */
  lemma CreatedIsFixedUp(users: map<UserId, User>, p: UserId, provider: Provider, token: Token, newId: UserId,
                         resolved: map<UserId, User>)
    requires newId !in users && ResolvesSecondary(users, p, provider, token, newId, resolved, newId)
    ensures p in resolved && newId in resolved && UniqueKeys(resolved)
    ensures resolved[newId := FixedUp(resolved, p, provider, token, resolved[newId])] == resolved
  {
    ResolvedUsers(users, p, provider, token, newId, resolved, newId);
    assert resolved != users;
  }

  lemma NewUserHasNothing<D>(db: Db<D>, db': Db<D>, u: UserId, now: int, found: Option<SubId>)
    requires Inv(db) && u !in db.users && db' == db.(users := db'.users)
    ensures ActiveSubscription(db', u, now, found) ==> found.None?
  {
    forall id
      ensures !Owns(db', u, now, id) && !MappedTo(db', u, now, id)
    {
    }
  }

  lemma NewLinkKeepsInv<D>(db: Db<D>, db': Db<D>, p: UserId, s: UserId, now: int, shared: Option<SubId>)
    requires Inv(db) && NewLink(db, db', p, s, now, shared) && db'.users[p].provider != db'.users[s].provider
    ensures Inv(db')
  {
    forall l | l in db'.links
      ensures l.primary in db'.users && l.linked in db'.users
      ensures db'.users[l.primary].provider != db'.users[l.linked].provider
    {
      if l in db.links {
        assert l.Touches(l.primary) && l.Touches(l.linked);
      }
    }
    assert Link(p, s) in db'.links;
  }

  /** After a successful link each of the two is entitled exactly when at least one of them was, and not both were; nobody
      else's entitlement changes, at any time. A refused link changes nobody's. */
  lemma LinkSharesEntitlement<D>(db: Db<D>, db': Db<D>, p: UserId, provider: Provider, token: Token, now: int,
                                 newId: UserId, outcome: Outcome, other: UserId, time: int)
    requires Inv(db) && newId !in db.users && LinkStep(db, db', p, provider, token, now, newId, outcome)
    ensures outcome.LinkedTo? ==>
              var s := outcome.secondary;
              && (Entitled(db', p, now) <==> Entitled(db, p, now) || Entitled(db, s, now))
              && (Entitled(db', s, now) <==> Entitled(db, p, now) || Entitled(db, s, now))
              && !(Entitled(db, p, now) && Entitled(db, s, now))
              && (other != p && other != s ==> (Entitled(db', other, time) <==> Entitled(db, other, time)))
    ensures outcome.Refused? ==> (Entitled(db', other, time) <==> Entitled(db, other, time))
  {
    var shared := LinkOutcomes(db, db', p, provider, token, now, newId, outcome);
    if outcome.LinkedTo? {
      NewLinkShares(db, db', p, outcome.secondary, now, shared);
      if other != p && other != outcome.secondary {
        SameRowsSameEntitlement(db, db', other, time);
      }
    } else {
      SameRowsSameEntitlement(db, db', other, time);
    }
  }

  lemma SameRowsSameEntitlement<D>(db: Db<D>, db': Db<D>, u: UserId, now: int)
    requires db'.subs == db.subs && forall id :: Key(id, u) in db.rows <==> Key(id, u) in db'.rows
    ensures Entitled(db', u, now) <==> Entitled(db, u, now)
  {
    SameSubsSameOwners(db, db', u, now);
    forall id
      ensures MappedTo(db', u, now, id) <==> MappedTo(db, u, now, id)
    {
    }
  }

  lemma NewLinkShares<D>(db: Db<D>, db': Db<D>, p: UserId, s: UserId, now: int, shared: Option<SubId>)
    requires Inv(db) && NewLink(db, db', p, s, now, shared)
    ensures Entitled(db, p, now) <==> OwnsAny(db, p, now)
    ensures Entitled(db, s, now) <==> OwnsAny(db, s, now)
    ensures Entitled(db', p, now) <==> OwnsAny(db, p, now) || OwnsAny(db, s, now)
    ensures Entitled(db', s, now) <==> OwnsAny(db, p, now) || OwnsAny(db, s, now)
  {
    EntitledIsOwning(db, p, now);
    EntitledIsOwning(db, s, now);
    SameSubsSameOwners(db, db', p, now);
    SameSubsSameOwners(db, db', s, now);
    match shared
    case None =>
      SameRowsSameEntitlement(db, db', p, now);
      SameRowsSameEntitlement(db, db', s, now);
    case Some(id) =>
      assert MappedTo(db', if db.subs[id].owner == p then s else p, now, id);
      assert OwnsAny(db, db.subs[id].owner, now);
  }

  // ---------- Unlinking ----------

  /** Under the invariant a user can unlink exactly the one partner there may be. */
  lemma UnlinkSucceedsIffLinked<D>(db: Db<D>, db': Db<D>, u: UserId, provider: Provider, outcome: UnlinkOutcome)
    requires Inv(db) && UnlinkStep(db, db', u, provider, outcome)
    ensures outcome.UnlinkedFrom? <==> u in db.users && db.users[u].provider != provider && Touched(db.links, u)
    ensures outcome.UnlinkedFrom? ==>
              u != outcome.partner && AreLinked(db.links, u, outcome.partner) && outcome.partner in db.users
  {
    if u in db.users && db.users[u].provider != provider && Touched(db.links, u) {
      var l :| l in db.links && l.Touches(u);
      assert CanUnlink(db, u, provider, l);
    }
  }

  /** The one link of a matched pair. */
  lemma PairHasOneLink<D>(db: Db<D>, a: UserId, b: UserId, l: Link)
    requires IsMatching(db) && l in db.links && l.Touches(a) && l.Other(a) == b
    ensures IsPair(l, a, b) && a != b && l.Touches(b) && l.Other(b) == a
    ensures forall m :: m in db.links && (m.Touches(a) || m.Touches(b)) ==> m == l
  {
  }

  lemma UnlinkKeepsInv<D>(db: Db<D>, db': Db<D>, u: UserId, provider: Provider, outcome: UnlinkOutcome)
    requires Inv(db) && UnlinkStep(db, db', u, provider, outcome)
    ensures Inv(db')
    ensures outcome.UnlinkedFrom? ==> !Touched(db'.links, u) && !Touched(db'.links, outcome.partner)
  {
    if outcome.UnlinkedFrom? {
      var b := outcome.partner;
      var l :| CanUnlink(db, u, provider, l) && l.Other(u) == b &&
        db' == db.(links := db.links - {l}, rows := map k | k in db.rows && !SharedRow(db, u, b, k) :: db.rows[k]);
      PairHasOneLink(db, u, b, l);
      forall k | k in db'.rows && db'.rows[k] == Linked
        ensures AreLinked(db'.links, db'.subs[k.sub].owner, k.user)
      {
        var o := db.subs[k.sub].owner;
        var m := if Link(o, k.user) in db.links then Link(o, k.user) else Link(k.user, o);
        assert m in db.links && m.Touches(o) && m.Touches(k.user);
        assert m != l;
      }
    }
  }

  /** After unlinking each of the two is entitled exactly by an own subscription; nobody else's entitlement changes. */
  lemma UnlinkSeparates<D>(db: Db<D>, db': Db<D>, u: UserId, provider: Provider, outcome: UnlinkOutcome, other: UserId,
                           time: int)
    requires Inv(db) && UnlinkStep(db, db', u, provider, outcome)
    ensures outcome.UnlinkedFrom? && other in {u, outcome.partner} ==>
              (Entitled(db', other, time) <==> OwnsAny(db, other, time))
    ensures !(outcome.UnlinkedFrom? && other in {u, outcome.partner}) ==>
              (Entitled(db', other, time) <==> Entitled(db, other, time))
  {
    UnlinkKeepsInv(db, db', u, provider, outcome);
    if outcome.UnlinkedFrom? && other in {u, outcome.partner} {
      EntitledIsOwning(db', other, time);
      SameSubsSameOwners(db, db', other, time);
    } else {
      SameRowsSameEntitlement(db, db', other, time);
    }
  }

  /** Linking and then unlinking, by either of the two users, always succeeds and restores linked_accounts and
      subscription_users, and with them every user's entitlement at every time. */
  lemma LinkThenUnlink<D>(db: Db<D>, mid: Db<D>, db': Db<D>, p: UserId, provider: Provider, token: Token, now: int,
                          newId: UserId, s: UserId, u: UserId, unlinked: Provider, outcome: UnlinkOutcome)
    requires Inv(db) && newId !in db.users && LinkStep(db, mid, p, provider, token, now, newId, LinkedTo(s))
    requires IdentityKnown(db, provider, token, s)
    requires (u == p && unlinked == provider) || (u == s && unlinked == db.users[p].provider)
    requires UnlinkStep(mid, db', u, unlinked, outcome)
    ensures outcome == UnlinkedFrom(if u == p then s else p)
    ensures db'.links == db.links && db'.rows == db.rows && db'.subs == db.subs
    ensures forall other, time :: Entitled(db', other, time) <==> Entitled(db, other, time)
  {
    var shared := LinkOutcomes(db, mid, p, provider, token, now, newId, LinkedTo(s));
    NewLinkKeepsInv(db, mid, p, s, now, shared);
    var l := Link(p, s);
    assert l in mid.links && l.Touches(u);
    UnlinkSucceedsIffLinked(mid, db', u, unlinked, outcome);
    PairHasOneLink(mid, p, s, l);
    UnlinkRestores(db, mid, db', p, s, now, shared, u, unlinked, outcome);
    forall other, time
      ensures Entitled(db', other, time) <==> Entitled(db, other, time)
    {
      SameRowsSameEntitlement(db, db', other, time);
    }
  }

  lemma UnlinkRestores<D>(db: Db<D>, mid: Db<D>, db': Db<D>, p: UserId, s: UserId, now: int, shared: Option<SubId>,
                          u: UserId, unlinked: Provider, outcome: UnlinkOutcome)
    requires Inv(db) && Inv(mid) && NewLink(db, mid, p, s, now, shared) && u in {p, s}
    requires UnlinkStep(mid, db', u, unlinked, outcome) && outcome == UnlinkedFrom(if u == p then s else p)
    ensures db'.links == db.links && db'.rows == db.rows && db'.subs == db.subs
  {
    var b := outcome.partner;
    LinksRestored(db, mid, p, s, now, shared);
    RowsRestored(db, mid, p, s, now, shared, u, b);
    forall l | CanUnlink(mid, u, unlinked, l) && l.Other(u) == b
      ensures l == Link(p, s)
    {
      assert Link(p, s) in mid.links;
      PairHasOneLink(mid, u, b, l);
    }
  }

  lemma LinksRestored<D>(db: Db<D>, mid: Db<D>, p: UserId, s: UserId, now: int, shared: Option<SubId>)
    requires NewLink(db, mid, p, s, now, shared)
    ensures mid.links - {Link(p, s)} == db.links
  {
    assert Link(p, s) in db.links ==> Link(p, s).Touches(p);
  }

  lemma RowsRestored<D>(db: Db<D>, mid: Db<D>, p: UserId, s: UserId, now: int, shared: Option<SubId>, u: UserId,
                        b: UserId)
    requires Inv(db) && NewLink(db, mid, p, s, now, shared) && ((u == p && b == s) || (u == s && b == p))
    ensures (map k | k in mid.rows && !SharedRow(mid, u, b, k) :: mid.rows[k]) == db.rows
  {
    forall k | k in mid.rows
      ensures SharedRow(mid, u, b, k) <==> k !in db.rows
    {
      SharedRowsAreNew(db, mid, p, s, now, shared, k);
    }
  }

  /** Of the rows after a link, the shared rows of the pair are exactly those the link has added. */
  lemma SharedRowsAreNew<D>(db: Db<D>, mid: Db<D>, p: UserId, s: UserId, now: int, shared: Option<SubId>, k: Key)
    requires Inv(db) && NewLink(db, mid, p, s, now, shared) && k in mid.rows
    ensures SharedRow(mid, p, s, k) <==> k !in db.rows
    ensures SharedRow(mid, s, p, k) <==> k !in db.rows
  {
    if k in db.rows && db.rows[k] == Linked && k.user in {p, s} {
      var o := db.subs[k.sub].owner;
      var m := if Link(o, k.user) in db.links then Link(o, k.user) else Link(k.user, o);
      assert m.Touches(k.user);
    }
  }

  // ---------- Every run ----------

  /** Any operation of the serial system; an Apple link knows the identity of the user it links. */
  ghost predicate Next<D(!new)>(db: Db<D>, db': Db<D>) {
    || (exists p, provider, token, now, newId, outcome ::
          && newId !in db.users && LinkStep(db, db', p, provider, token, now, newId, outcome)
          && (outcome.LinkedTo? ==> IdentityKnown(db, provider, token, outcome.secondary)))
    || (exists u, provider, outcome :: UnlinkStep(db, db', u, provider, outcome))
    || PaymentStep(db, db')
    || (exists u, user :: SignsIn(db, db', u, user))
  }

  ghost predicate PaymentStep<D(!new)>(db: Db<D>, db': Db<D>) {
    || (exists id, s :: CreatesSub(db, db', id, s))
    || (exists id, s :: UpdatesSub(db, db', id, s))
    || (exists id :: Maps(db, db', id))
  }

  lemma MappedRows(rows: map<Key, Role>, links: set<Link>, id: SubId, u: UserId, k: Key)
    ensures k in Mapped(rows, links, id, u) <==>
              k in rows || k == Key(id, u) || (k.sub == id && AreLinked(links, u, k.user))
    ensures k in Mapped(rows, links, id, u) ==>
              Mapped(rows, links, id, u)[k] == (if k in rows then rows[k] else if k == Key(id, u) then Owner else Linked)
  {
    assert k.user in Partners(links, u) <==> AreLinked(links, u, k.user) by {
      if Link(u, k.user) in links {
        assert Link(u, k.user).Touches(u) && Link(u, k.user).Other(u) == k.user;
      } else if Link(k.user, u) in links {
        assert Link(k.user, u).Touches(u) && Link(k.user, u).Other(u) == k.user;
      }
    }
  }

  lemma PaymentKeepsInv<D(!new)>(db: Db<D>, db': Db<D>)
    requires Inv(db) && PaymentStep(db, db')
    ensures Inv(db')
  {
    if id :| Maps(db, db', id) {
      MapsKeepsInv(db, db', id);
    }
  }

  /** Mapping keeps the invariant and leaves exactly the owner and the owner's linked users mapped. */
  lemma MapsKeepsInv<D>(db: Db<D>, db': Db<D>, id: SubId)
    requires Inv(db) && Maps(db, db', id)
    ensures Inv(db')
    ensures var o := db.subs[id].owner;
            forall v :: Key(id, v) in db'.rows <==> v == o || AreLinked(db.links, o, v)
  {
    var o := db.subs[id].owner;
    forall k
      ensures k in db'.rows <==> k in db.rows || k == Key(id, o) || (k.sub == id && AreLinked(db.links, o, k.user))
      ensures k in db'.rows ==>
                db'.rows[k] == (if k in db.rows then db.rows[k] else if k == Key(id, o) then Owner else Linked)
    {
      MappedRows(db.rows, db.links, id, o, k);
    }
    forall v | AreLinked(db.links, o, v)
      ensures v in db.users
    {
      var l := if Link(o, v) in db.links then Link(o, v) else Link(v, o);
      assert l.Touches(v);
    }
  }

  /** After a mapping the owner and every partner of the owner share the subscription exactly while it is in force, and
      nobody else does. */
  lemma MappingShares<D>(db: Db<D>, db': Db<D>, id: SubId, v: UserId, now: int)
    requires Inv(db) && Maps(db, db', id)
    ensures MappedTo(db', v, now, id) <==>
              InForce(db.subs[id], now) && (v == db.subs[id].owner || AreLinked(db.links, db.subs[id].owner, v))
  {
    MapsKeepsInv(db, db', id);
  }

  lemma StepKeepsInv<D(!new)>(db: Db<D>, db': Db<D>)
    requires Inv(db) && Next(db, db')
    ensures Inv(db')
  {
    if p, provider, token, now, newId, outcome :|
      && newId !in db.users && LinkStep(db, db', p, provider, token, now, newId, outcome)
      && (outcome.LinkedTo? ==> IdentityKnown(db, provider, token, outcome.secondary))
    {
      LinkKeepsInv(db, db', p, provider, token, now, newId, outcome);
    } else if u, provider, outcome :| UnlinkStep(db, db', u, provider, outcome) {
      UnlinkKeepsInv(db, db', u, provider, outcome);
    } else if PaymentStep(db, db') {
      PaymentKeepsInv(db, db');
    } else {
      var u, user :| SignsIn(db, db', u, user);
      UserChangesKeepInv(db, db'.users);
    }
  }

  ghost predicate StepAt<D(!new)>(run: seq<Db<D>>, k: nat)
    requires 0 < k < |run|
  {
    Next(run[k - 1], run[k])
  }

  ghost predicate Steps<D(!new)>(run: seq<Db<D>>) {
    forall k: nat :: 0 < k < |run| ==> StepAt(run, k)
  }

  lemma {:induction false} RunKeepsInv<D(!new)>(run: seq<Db<D>>, i: nat)
    requires i < |run| && Inv(run[0]) && Steps(run)
    ensures Inv(run[i])
  {
    if i == 0 {
    } else {
      RunKeepsInv(run, i - 1);
      assert StepAt(run, i);
      StepKeepsInv(run[i - 1], run[i]);
    }
  }

  /** In every state of every serial run linked_accounts is a matching of users of different providers, without
      self-links, and every LINKED row joins the owner of its subscription to a user linked to that owner. */
  lemma EveryRunKeepsInv<D(!new)>(run: seq<Db<D>>, i: nat)
    requires |run| > 0 && run[0] == Db(map[], {}, map[], map[]) && i < |run| && Steps(run)
    ensures Inv(run[i])
    ensures forall l :: l in run[i].links ==> l.primary != l.linked
  {
    RunKeepsInv(run, i);
  }

  // ---------- A link made while a subscription is not in force ----------

  /** While the owner o of a subscription and v stay linked, only a mapping gives v a row for it. */
  lemma RowAppearsByMapping<D(!new)>(db: Db<D>, db': Db<D>, id: SubId, v: UserId)
    requires Inv(db) && Next(db, db') && id in db.subs && v != db.subs[id].owner
    requires AreLinked(db.links, db.subs[id].owner, v) && AreLinked(db'.links, db.subs[id].owner, v)
    ensures id in db'.subs && db'.subs[id].owner == db.subs[id].owner
    ensures Key(id, v) in db'.rows <==> Key(id, v) in db.rows || Maps(db, db', id)
  {
    var o := db.subs[id].owner;
    if Maps(db, db', id) {
      MapsKeepsInv(db, db', id);
    } else if p, provider, token, now, newId, outcome :|
      newId !in db.users && LinkStep(db, db', p, provider, token, now, newId, outcome)
    {
      LinkLeavesLinkedPairs(db, db', p, provider, token, now, newId, outcome, id, v);
    } else if u, provider, outcome :| UnlinkStep(db, db', u, provider, outcome) {
      UnlinkLeavesLinkedPairs(db, db', u, provider, outcome, id, v);
    } else if other :| Maps(db, db', other) {
      MappedRows(db.rows, db.links, other, db.subs[other].owner, Key(id, v));
    }
  }

  lemma LinkLeavesLinkedPairs<D>(db: Db<D>, db': Db<D>, p: UserId, provider: Provider, token: Token, now: int,
                                 newId: UserId, outcome: Outcome, id: SubId, v: UserId)
    requires Inv(db) && newId !in db.users && LinkStep(db, db', p, provider, token, now, newId, outcome)
    requires id in db.subs && v != db.subs[id].owner && AreLinked(db.links, db.subs[id].owner, v)
    ensures db'.subs == db.subs && (Key(id, v) in db'.rows <==> Key(id, v) in db.rows)
  {
    var o := db.subs[id].owner;
    var l := if Link(o, v) in db.links then Link(o, v) else Link(v, o);
    assert l.Touches(o) && l.Touches(v);
    var shared := LinkOutcomes(db, db', p, provider, token, now, newId, outcome);
  }

  lemma UnlinkLeavesLinkedPairs<D>(db: Db<D>, db': Db<D>, u: UserId, provider: Provider, outcome: UnlinkOutcome,
                                   id: SubId, v: UserId)
    requires Inv(db) && UnlinkStep(db, db', u, provider, outcome) && id in db.subs && v != db.subs[id].owner
    requires AreLinked(db'.links, db.subs[id].owner, v)
    ensures db'.subs == db.subs && (Key(id, v) in db'.rows <==> Key(id, v) in db.rows)
  {
    UnlinkKeepsInv(db, db', u, provider, outcome);
    var o := db.subs[id].owner;
    var l := if Link(o, v) in db'.links then Link(o, v) else Link(v, o);
    assert l.Touches(o) && l.Touches(v);
  }

  /** One of the first i steps of the run maps the subscription. */
  predicate MappedWithin<D(==)>(run: seq<Db<D>>, i: nat, id: SubId)
    requires i < |run|
  {
    i > 0 && (MappedWithin(run, i - 1, id) || Maps(run[i - 1], run[i], id))
  }

  lemma {:induction false} RowsOfLinkedPair<D(!new)>(run: seq<Db<D>>, i: nat, id: SubId, o: UserId, v: UserId)
    requires i < |run| && Inv(run[0]) && Steps(run)
    requires forall k :: 0 <= k < |run| ==> AreLinked(run[k].links, o, v)
    requires id in run[0].subs && run[0].subs[id].owner == o && o != v && Key(id, v) !in run[0].rows
    ensures id in run[i].subs && run[i].subs[id].owner == o
    ensures Key(id, v) in run[i].rows <==> MappedWithin(run, i, id)
  {
    if i == 0 {
    } else {
      RowsOfLinkedPair(run, i - 1, id, o, v);
      RunKeepsInv(run, i - 1);
      assert StepAt(run, i);
      RowAppearsByMapping(run[i - 1], run[i], id, v);
    }
  }

  /** Two users are linked while a subscription of one of them is not in force. Over every run in which they stay linked:
      once it is in force the owner is entitled, but the partner has a row for it exactly from the first mapping on, and
      until then is entitled only through some other subscription. A renewal of an Apple subscription does not map. */
  lemma LapsedLinkStaysUnshared<D(!new)>(start: Db<D>, run: seq<Db<D>>, i: nat, p: UserId, provider: Provider,
                                         token: Token, now: int, newId: UserId, s: UserId, id: SubId, later: int)
    requires Inv(start) && newId !in start.users && i < |run|
    requires LinkStep(start, run[0], p, provider, token, now, newId, LinkedTo(s)) && IdentityKnown(start, provider, token, s)
    requires id in start.subs && start.subs[id].owner in {p, s} && !InForce(start.subs[id], now)
    requires Steps(run) && forall k :: 0 <= k < |run| ==> AreLinked(run[k].links, p, s)
    ensures id in run[i].subs
    ensures var o := start.subs[id].owner; InForce(run[i].subs[id], later) ==> Entitled(run[i], o, later)
    ensures var v := if start.subs[id].owner == p then s else p;
            && (Key(id, v) in run[i].rows <==> MappedWithin(run, i, id))
            && (!MappedWithin(run, i, id) ==>
                  (Entitled(run[i], v, later) <==>
                     exists j :: j != id && (Owns(run[i], v, later, j) || MappedTo(run[i], v, later, j))))
  {
    var o := start.subs[id].owner;
    var v := if o == p then s else p;
    LapsedLinkAddsNoRow(start, run[0], p, provider, token, now, newId, s, id);
    RowsOfLinkedPair(run, i, id, o, v);
    assert InForce(run[i].subs[id], later) ==> Owns(run[i], o, later, id);
    assert !MappedWithin(run, i, id) ==> !Owns(run[i], v, later, id) && !MappedTo(run[i], v, later, id);
  }

  lemma LapsedLinkAddsNoRow<D>(db: Db<D>, db': Db<D>, p: UserId, provider: Provider, token: Token, now: int,
                               newId: UserId, s: UserId, id: SubId)
    requires Inv(db) && newId !in db.users && LinkStep(db, db', p, provider, token, now, newId, LinkedTo(s))
    requires IdentityKnown(db, provider, token, s)
    requires id in db.subs && db.subs[id].owner in {p, s} && !InForce(db.subs[id], now)
    ensures Inv(db') && p != s && db'.subs == db.subs
    ensures Key(id, if db.subs[id].owner == p then s else p) !in db'.rows
  {
    LinkKeepsInv(db, db', p, provider, token, now, newId, LinkedTo(s));
    var shared := LinkOutcomes(db, db', p, provider, token, now, newId, LinkedTo(s));
    UnlinkedIsNotMapped(db, Key(id, if db.subs[id].owner == p then s else p), p, s);
  }

  /** It happens: any Google and Apple user, the latter's subscription expired, linked, and then renewed for good. */
  lemma LapsedLinkWithoutAccess<D>(users: map<UserId, User>, p: UserId, s: UserId, token: Token, detail: D, now: int,
                                   newId: UserId) returns (start: Db<D>, linked: Db<D>, renewed: Db<D>)
    requires users.Keys == {p, s} && p != s && UniqueKeys(users)
    requires users[p].provider == Google && users[s].provider == Apple
    requires token == Token(token.uid, None, users[s].appleUserId) && users[s].firebaseUid == Some(token.uid)
    requires users[s].appleUserId.Some?
    ensures Inv(start) && LinkStep(start, linked, p, Apple, token, now, newId, LinkedTo(s))
    ensures UpdatesSub(linked, renewed, 0, Subscription(s, 0, Active, None, detail))
    ensures forall later :: Entitled(renewed, s, later) && !Entitled(renewed, p, later)
  {
    var lapsed, active := Subscription(s, 0, Expired, None, detail), Subscription(s, 0, Active, None, detail);
    start := Db(users, {}, map[0 := lapsed], map[]);
    linked := start.(links := {Link(p, s)});
    renewed := linked.(subs := linked.subs[0 := active]);
    assert ActiveSubscription(start, p, now, None) && ActiveSubscription(start, s, now, None);
    LinksToFoundUser(start, linked, p, s, token, now, newId);
    OnlyTheOwner(renewed, s, p, 0);
  }

  lemma OnlyTheOwner<D>(db: Db<D>, o: UserId, v: UserId, id: SubId)
    requires db.subs.Keys == {id} && db.rows == map[] && o != v
    requires db.subs[id].owner == o && db.subs[id].status == Active && db.subs[id].periodEnd.None?
    ensures forall later :: Entitled(db, o, later) && !Entitled(db, v, later)
  {
    forall later
      ensures Entitled(db, o, later) && !Entitled(db, v, later)
    {
      assert Owns(db, o, later, id);
    }
  }

  lemma LinksToFoundUser<D>(db: Db<D>, db': Db<D>, p: UserId, s: UserId, token: Token, now: int, newId: UserId)
    requires UniqueKeys(db.users) && p in db.users && s in db.users && p != s
    requires db.users[p].provider == Google && db.users[s].provider == Apple
    requires token == Token(token.uid, None, db.users[s].appleUserId) && db.users[s].firebaseUid == Some(token.uid)
    requires db.users[s].appleUserId.Some? && db.links == {} && db' == db.(links := {Link(p, s)})
    requires ActiveSubscription(db, p, now, None) && ActiveSubscription(db, s, now, None)
    ensures LinkStep(db, db', p, Apple, token, now, newId, LinkedTo(s))
  {
    var users := db.users;
    assert Looks(users, HasFirebaseUid(token.uid), Some(s)) && Looks(users, HasAppleId(token.appleIdentity.value), Some(s));
    assert FindsSecondary(users, p, Apple, token, FirstFound(p, Apple, Some(s), Some(s), None));
    assert ResolvesSecondary(users, p, Apple, token, newId, users, s);
    assert users[s := FixedUp(users, p, Apple, token, users[s])] == users;
    assert db.(users := users) == db;
    assert Joins(db, db', p, s, now, None, None, LinkedTo(s));
    assert Finishes(db, db', p, Apple, token, now, users, s, None, None, LinkedTo(s));
  }

  /** The condition on Apple links is needed: two Google users, neither linked nor subscribed, and a token of the second
      that carries no Apple identity. */
  lemma AppleLinkOfTwoGoogleUsers<D>(db: Db<D>, p: UserId, s: UserId, token: Token, now: int, newId: UserId)
    returns (db': Db<D>)
    requires UniqueKeys(db.users) && db.links == {} && db.subs == map[] && db.rows == map[]
    requires p in db.users && s in db.users && p != s && db.users[p].provider == db.users[s].provider == Google
    requires token == Token(token.uid, None, None) && db.users[s].firebaseUid == Some(token.uid)
    ensures LinkStep(db, db', p, Apple, token, now, newId, LinkedTo(s)) && !IsMatching(db')
  {
    var users := db.users;
    assert Looks(users, HasFirebaseUid(token.uid), Some(s));
    assert FindsSecondary(users, p, Apple, token, FirstFound(p, Apple, Some(s), None, None));
    assert FixedUp(users, p, Apple, token, users[s]) == users[s];
    assert users[s := users[s]] == users;
    db' := db.(links := {Link(p, s)});
    assert ActiveSubscription(db, p, now, None) && ActiveSubscription(db, s, now, None);
    assert db.(users := users) == db;
    assert Joins(db, db', p, s, now, None, None, LinkedTo(s));
    assert Finishes(db, db', p, Apple, token, now, users, s, None, None, LinkedTo(s));
    assert Link(p, s) in db'.links;
  }
}
