/**
 * Runs of the identity services. A caller may hold any record it ever read, so a step is judged
 * against the whole history: its arguments were built from rows of some earlier state, while its
 * write lands on the current one.
 */
module IdentityHistory {
  import opened Records
  import opened IdentityState

  ghost predicate SeenAccount(h: seq<Store>, id: AccountId, account: Account) {
    exists k :: 0 <= k < |h| && id in h[k].accounts && h[k].accounts[id] == account
  }

  ghost predicate SeenInvitation(h: seq<Store>, id: InvitationId, invitation: Invitation) {
    exists k :: 0 <= k < |h| && id in h[k].invitations && h[k].invitations[id] == invitation
  }

  ghost predicate SeenMembership(h: seq<Store>, org: OrgId, account: AccountId, role: Role) {
    exists k :: 0 <= k < |h| && (org, account) in h[k].memberships && h[k].memberships[(org, account)] == role
  }

  ghost predicate SeenSession(h: seq<Store>, id: SessionId, session: Session) {
    exists k :: 0 <= k < |h| && id in h[k].sessions && h[k].sessions[id] == session
  }

  /** The record a holder of `from` can hand to the monotone save. */
  ghost predicate Reaches(from: Invitation, record: Invitation) {
    || record == from
    || exists at: Moment ::
         Some(record) == from.Redeemed(at) || Some(record) == from.Revoked(at)
         || Some(record) == from.VerifierDestroyed(at)
  }

  ghost predicate AccountPermitted(h: seq<Store>, t: AccountTxn) {
    match t
    case AddAccount(_, record, link) =>
      record.email.Some? && record.disabledAt.None? && (link.Some? <==> record.verifier.None?)
    case ReduceOwner(id, record) =>
      exists snapshot: Account, now: Moment ::
        SeenAccount(h, id, snapshot) && snapshot.CanAct() && record == snapshot.Disabled(now)
    case SaveAccount(id, record) =>
      exists snapshot ::
        SeenAccount(h, id, snapshot) && !snapshot.IsPurged() && snapshot.disabledAt.Some?
        && record == snapshot.Enabled()
    case _ => true
  }

  /** A redemption uses an offer it read open and verified, as an actor it read as the addressee. */
  ghost predicate RedeemPermitted(h: seq<Store>, t: MembershipTxn) requires t.Redeem? {
    && t.event.organization == t.org && t.event.account == t.account
    && t.event.priorRole == None && t.event.nextRole == Some(t.role) && t.event.occurredAt == t.now
    && exists offer: Invitation, actor: Account ::
         && SeenInvitation(h, t.id, offer) && offer.verifier.Some? && offer.IsOpenAt(t.now)
         && offer.organization == t.org && offer.intendedRole == t.role
         && SeenAccount(h, t.account, actor) && actor.email == Some(offer.target)
  }

  ghost predicate MembershipPermitted(h: seq<Store>, t: MembershipTxn) {
    match t
    case CreateOrganization(org, member, _, event) =>
      && member == Membership(org, member.account, Owner)
      && event.priorRole == None && event.nextRole == Some(Owner)
    case Promote(member, event) =>
      && SeenMembership(h, member.organization, member.account, Member)
      && member.role == Owner && event.priorRole == Some(Member) && event.nextRole == Some(Owner)
    case Redeem(_, _, _, _, _, _, _) => RedeemPermitted(h, t)
    case _ => true
  }

  ghost predicate InvitationPermitted(h: seq<Store>, t: InvitationTxn) requires h != [] {
    match t
    case AddInvitation(id, offer) =>
      id !in h[|h| - 1].issued && offer.redeemedAt.None? && offer.revokedAt.None?
      && offer.issuedAt < offer.expiresAt
    case SaveInvitation(id, record) => exists from :: SeenInvitation(h, id, from) && Reaches(from, record)
    case _ => true
  }

  ghost predicate SessionPermitted(h: seq<Store>, t: SessionTxn) requires h != [] {
    match t
    case AddSession(id, issue) => id !in h[|h| - 1].minted && issue.revokedAt.None?
    case PointSession(id, _) => exists snapshot :: SeenSession(h, id, snapshot) && snapshot.revokedAt.None?
    case RevokeSession(id, _) => exists snapshot :: SeenSession(h, id, snapshot) && snapshot.revokedAt.None?
    case _ => true
  }

  /** What the services check, on their snapshots, before they call the store. */
  ghost predicate Permitted(h: seq<Store>, t: Txn) requires h != [] {
    match t
    case OfAccount(a) => AccountPermitted(h, a)
    case OfMembership(m) => MembershipPermitted(h, m)
    case OfInvitation(i) => InvitationPermitted(h, i)
    case OfSession(e) => SessionPermitted(h, e)
  }

  /** A run from empty tables: `h[i + 1]` is what `ts[i]` makes of `h[i]`. */
  ghost predicate Run(h: seq<Store>, ts: seq<Txn>) {
    && |h| == |ts| + 1 && h[0] == EMPTY
    && forall i :: 0 <= i < |ts| ==> StepAt(h, ts, i)
  }

  ghost predicate StepAt(h: seq<Store>, ts: seq<Txn>, i: nat) requires |h| == |ts| + 1 && i < |ts| {
    Permitted(h[..i + 1], ts[i]) && h[i + 1] == Apply(h[i], ts[i])
  }

  // ----- what one state always satisfies -------------------------------------------------------

  function RoleAfter(log: seq<LogEntry>, org: OrgId, account: AccountId): Option<Role> {
    if log == [] then None
    else
      var last := log[|log| - 1].event;
      if last.organization == org && last.account == account then last.nextRole
      else RoleAfter(log[..|log| - 1], org, account)
  }

  function RoleNow(s: Store, org: OrgId, account: AccountId): Option<Role> {
    if (org, account) in s.memberships then Some(s.memberships[(org, account)]) else None
  }

  /** Every event's prior role is the role folding the earlier events gives. */
  ghost predicate PriorsTold(log: seq<LogEntry>) {
    forall i :: 0 <= i < |log| ==>
      log[i].event.priorRole == RoleAfter(log[..i], log[i].event.organization, log[i].event.account)
  }

  ghost predicate LogTellsRoles(s: Store) {
    && PriorsTold(s.log)
    && forall org, account :: RoleAfter(s.log, org, account) == RoleNow(s, org, account)
  }

  ghost predicate AccountsSound(accounts: map<AccountId, Account>) {
    && (forall id :: id in accounts ==> accounts[id].disabledAt.Some? ==> accounts[id].verifier.None?)
    && (forall id :: id in accounts ==> accounts[id].IsPurged() ==> accounts[id].disabledAt.Some?)
    && (forall a, b :: a in accounts && b in accounts && a != b && accounts[a].email.Some?
          ==> accounts[a].email != accounts[b].email)
  }

  ghost predicate RowsSound(s: Store) {
    && (forall subject :: subject in s.links ==> s.links[subject] in s.accounts)
    && (forall key :: key in s.memberships ==> key.0 in s.organizations && key.1 in s.accounts)
    && (forall id :: id in s.invitations ==> s.invitations[id].organization in s.organizations)
    && (forall org :: org in s.scopes <==> org in s.organizations)
    && (forall a, b :: a in s.scopes && b in s.scopes && a != b ==> s.scopes[a] != s.scopes[b])
  }

  /** Redeemed or revoked but not both, and either way its verifier is gone. */
  predicate OneEnd(offer: Invitation) {
    && (offer.redeemedAt.None? || offer.revokedAt.None?)
    && (offer.redeemedAt.Some? || offer.revokedAt.Some? ==> offer.verifier.None?)
  }

  ghost predicate OffersSound(invitations: map<InvitationId, Invitation>, issued: set<InvitationId>) {
    && (forall id :: id in invitations ==> id in issued)
    && (forall id :: id in invitations ==> OneEnd(invitations[id]))
  }

  ghost predicate SessionsSound(sessions: map<SessionId, Session>, minted: set<SessionId>) {
    forall id :: id in sessions ==> id in minted
  }

  /** An invitation that made a membership is used up, and made it once. */
  ghost predicate GrantsSound(
    log: seq<LogEntry>, invitations: map<InvitationId, Invitation>, issued: set<InvitationId>)
  {
    && (forall i :: 0 <= i < |log| && log[i].via.Some? ==>
          && log[i].via.value in issued
          && (log[i].via.value in invitations ==> invitations[log[i].via.value].redeemedAt.Some?))
    && (forall i, j :: 0 <= i < j < |log| && log[i].via.Some? ==> log[i].via != log[j].via)
  }

  ghost predicate Sound(s: Store) {
    && AccountsSound(s.accounts) && RowsSound(s) && OffersSound(s.invitations, s.issued)
    && SessionsSound(s.sessions, s.minted) && GrantsSound(s.log, s.invitations, s.issued) && LogTellsRoles(s)
  }

  // ----- what a later state may differ in ------------------------------------------------------

  ghost predicate LaterAccount(x: Account, y: Account) {
    && (y.email == x.email || y.email.None?)
    && (y.verifier == x.verifier || y.verifier.None?)
    && (x.IsPurged() ==> y == x)
  }

  ghost predicate LaterInvitation(x: Invitation, y: Invitation) {
    && x.SameOffer(y)
    && (y.verifier == x.verifier || y.verifier.None?)
    && (x.redeemedAt.Some? ==> y.redeemedAt == x.redeemedAt)
    && (x.revokedAt.Some? ==> y.revokedAt == x.revokedAt)
  }

  ghost predicate LaterSession(x: Session, y: Session) {
    && y.account == x.account && y.createdAt == x.createdAt && y.expiresAt == x.expiresAt
    && (x.revokedAt.Some? ==> y == x)
  }

  ghost predicate AccountsEvolve(x: map<AccountId, Account>, y: map<AccountId, Account>) {
    forall id :: id in x ==> id in y && LaterAccount(x[id], y[id])
  }

  ghost predicate InvitationsEvolve(
    x: map<InvitationId, Invitation>, issued: set<InvitationId>, y: map<InvitationId, Invitation>)
  {
    forall id :: id in y && id in issued ==> id in x && LaterInvitation(x[id], y[id])
  }

  ghost predicate SessionsEvolve(x: map<SessionId, Session>, minted: set<SessionId>, y: map<SessionId, Session>) {
    forall id :: id in y && id in minted ==> id in x && LaterSession(x[id], y[id])
  }

  ghost predicate ScopesEvolve(x: map<OrgId, int>, y: map<OrgId, int>) {
    forall org :: org in x ==> org in y && y[org] == x[org]
  }

  ghost predicate Evolves(s: Store, s': Store) {
    && s.organizations <= s'.organizations && ScopesEvolve(s.scopes, s'.scopes)
    && s.issued <= s'.issued && s.minted <= s'.minted && s.log <= s'.log
    && AccountsEvolve(s.accounts, s'.accounts)
    && InvitationsEvolve(s.invitations, s.issued, s'.invitations)
    && SessionsEvolve(s.sessions, s.minted, s'.sessions)
  }

  lemma EvolvesTransitive(a: Store, b: Store, c: Store)
    requires Evolves(a, b) && Evolves(b, c)
    ensures Evolves(a, c)
  {
  }

  /** The history up to a state, all of it sound and all of it evolving into that state. */
  ghost predicate Settled(h: seq<Store>) {
    && h != []
    && (forall k :: 0 <= k < |h| ==> Sound(h[k]))
    && (forall k :: 0 <= k < |h| ==> Evolves(h[k], h[|h| - 1]))
  }

  // ----- one step ------------------------------------------------------------------------------

  ghost function Now(h: seq<Store>): Store requires h != [] { h[|h| - 1] }

  /** A stale account record still agrees with the row it was read from. */
  lemma SnapshotAgrees(h: seq<Store>, id: AccountId, snapshot: Account)
    requires Settled(h) && SeenAccount(h, id, snapshot)
    ensures id in Now(h).accounts && LaterAccount(snapshot, Now(h).accounts[id])
    ensures snapshot.disabledAt.Some? ==> snapshot.verifier.None?
  {
  }

  /** Whatever account record a service writes, the row only moves forward and keeps its address. */
  lemma WrittenRecordIsLater(h: seq<Store>, t: AccountTxn)
    requires Settled(h) && AccountPermitted(h, t)
    ensures WritesLater(Now(h), t)
  {
    if t.ReduceOwner? {
      var snapshot: Account, now: Moment :|
        SeenAccount(h, t.account, snapshot) && snapshot.CanAct() && t.record == snapshot.Disabled(now);
      SnapshotAgrees(h, t.account, snapshot);
    } else if t.SaveAccount? {
      var snapshot :| SeenAccount(h, t.account, snapshot) && !snapshot.IsPurged() && snapshot.disabledAt.Some?
        && t.record == snapshot.Enabled();
      SnapshotAgrees(h, t.account, snapshot);
    }
  }

  /** The record a permitted account write carries, relative to the row it lands on. */
  ghost predicate WritesLater(s: Store, t: AccountTxn) {
    (t.ReduceOwner? || t.SaveAccount?) && t.account in s.accounts && !s.accounts[t.account].IsPurged() ==>
      && LaterAccount(s.accounts[t.account], t.record) && t.record.email == s.accounts[t.account].email
      && t.record.verifier.None?
      && (t.SaveAccount? ==> t.record.disabledAt.None? && s.accounts[t.account].verifier.None?)
  }

  ghost predicate AddsWhole(t: AccountTxn) {
    t.AddAccount? ==>
      t.record.email.Some? && t.record.disabledAt.None? && (t.link.Some? <==> t.record.verifier.None?)
  }

  // ----- accounts

  lemma ReplaceAccount(accounts: map<AccountId, Account>, id: AccountId, record: Account)
    requires AccountsSound(accounts) && id in accounts && LaterAccount(accounts[id], record)
    requires record.disabledAt.Some? ==> record.verifier.None?
    requires record.email.None? ==> record.disabledAt.Some?
    ensures AccountsSound(accounts[id := record]) && AccountsEvolve(accounts, accounts[id := record])
  {
  }

  lemma AccountsStep(s: Store, t: AccountTxn)
    requires AccountsSound(s.accounts) && WritesLater(s, t) && AddsWhole(t) && AccountLands(s, t)
    ensures AccountsSound(AccountTxnWritten(s, t).accounts)
    ensures AccountsEvolve(s.accounts, AccountTxnWritten(s, t).accounts)
  {
    match t
    case AddAccount(id, record, _) =>
    case ReduceOwner(id, record) => ReplaceAccount(s.accounts, id, record);
    case SaveAccount(id, record) => ReplaceAccount(s.accounts, id, record);
    case PurgeAccount(id, _) => ReplaceAccount(s.accounts, id, s.accounts[id].Purged());
    case LinkIdentity(_, _) =>
    case UnlinkIdentity(_) =>
  }

  lemma FewerOffers(x: map<InvitationId, Invitation>, issued: set<InvitationId>, y: map<InvitationId, Invitation>)
    requires OffersSound(x, issued) && forall id :: id in y ==> id in x && y[id] == x[id]
    ensures OffersSound(y, issued) && InvitationsEvolve(x, issued, y)
  {
  }

  lemma AccountTxnKeepsSound(s: Store, t: AccountTxn)
    requires Sound(s) && WritesLater(s, t) && AddsWhole(t) && AccountLands(s, t)
    ensures Sound(AccountTxnWritten(s, t)) && Evolves(s, AccountTxnWritten(s, t))
  {
    AccountsStep(s, t);
    var s' := AccountTxnWritten(s, t);
    FewerOffers(s.invitations, s.issued, s'.invitations);
    GrantsEvolve(s.log, s.invitations, s.issued, s'.invitations, s'.issued);
    SameRoles(s, s');
  }

  lemma SameRoles(s: Store, s': Store)
    requires LogTellsRoles(s) && s'.memberships == s.memberships && s'.log == s.log
    ensures LogTellsRoles(s')
  {
    forall org, account ensures RoleAfter(s'.log, org, account) == RoleNow(s', org, account) {
      assert RoleAfter(s.log, org, account) == RoleNow(s, org, account);
    }
  }

  // ----- memberships

  /** The roles a service writes into an event, before the store's own checks. */
  ghost predicate TellsRoles(t: MembershipTxn) {
    && (t.CreateOrganization? ==>
          && t.member == Membership(t.org, t.member.account, Owner)
          && t.event.priorRole == None && t.event.nextRole == Some(Owner))
    && (t.Promote? ==> t.event.nextRole == Some(t.member.role) && t.member.role == Owner)
    && (t.Redeem? ==>
          && t.event.organization == t.org && t.event.account == t.account
          && t.event.priorRole == None && t.event.nextRole == Some(t.role))
  }

  lemma GrantsEvolve(
    log: seq<LogEntry>, x: map<InvitationId, Invitation>, issued: set<InvitationId>,
    y: map<InvitationId, Invitation>, issued': set<InvitationId>)
    requires GrantsSound(log, x, issued) && InvitationsEvolve(x, issued, y) && issued <= issued'
    ensures GrantsSound(log, y, issued')
  {
    forall i | 0 <= i < |log| && log[i].via.Some? && log[i].via.value in y
      ensures y[log[i].via.value].redeemedAt.Some?
    {
      var id := log[i].via.value;
      assert id in issued;
      assert LaterInvitation(x[id], y[id]);
    }
  }

  lemma GrantsExtend(
    log: seq<LogEntry>, entry: LogEntry, invitations: map<InvitationId, Invitation>, issued: set<InvitationId>)
    requires GrantsSound(log, invitations, issued)
    requires entry.via.Some? ==>
               && entry.via.value in issued
               && (entry.via.value in invitations ==> invitations[entry.via.value].redeemedAt.Some?)
               && forall i :: 0 <= i < |log| ==> log[i].via != entry.via
    ensures GrantsSound(log + [entry], invitations, issued)
  {
    var log' := log + [entry];
    forall i | 0 <= i < |log'| && log'[i].via.Some?
      ensures log'[i].via.value in issued
      ensures log'[i].via.value in invitations ==> invitations[log'[i].via.value].redeemedAt.Some?
    {
      assert i < |log| ==> log'[i] == log[i];
    }
  }

  lemma LogExtends(s: Store, s': Store, event: MembershipEvent, via: Option<InvitationId>)
    requires LogTellsRoles(s) && s'.log == s.log + [LogEntry(event, via)]
    requires event.priorRole == RoleNow(s, event.organization, event.account)
    requires event.nextRole == RoleNow(s', event.organization, event.account)
    requires forall key :: key != (event.organization, event.account) ==>
               RoleNow(s', key.0, key.1) == RoleNow(s, key.0, key.1)
    ensures LogTellsRoles(s')
  {
    assert s'.log[..|s'.log| - 1] == s.log;
    forall i | 0 <= i < |s'.log|
      ensures s'.log[i].event.priorRole
              == RoleAfter(s'.log[..i], s'.log[i].event.organization, s'.log[i].event.account)
    {
      assert s'.log[..i] == s.log[..i];
      if i == |s.log| { assert s.log[..i] == s.log; }
    }
    forall org, account ensures RoleAfter(s'.log, org, account) == RoleNow(s', org, account) {
      var key := (org, account);
      assert key != (event.organization, event.account) ==> RoleNow(s', key.0, key.1) == RoleNow(s, key.0, key.1);
    }
  }

  lemma LogStep(s: Store, t: MembershipTxn)
    requires LogTellsRoles(s) && TellsRoles(t) && RowsSound(s) && MembershipLands(s, t)
    ensures LogTellsRoles(MembershipTxnWritten(s, t)) && s.log <= MembershipTxnWritten(s, t).log
  {
    var s' := MembershipTxnWritten(s, t);
    if t.PurgeEvents? {
      SameRoles(s, s');
    } else {
      var entry := s'.log[|s.log|];
      LogExtends(s, s', entry.event, entry.via);
    }
  }

  lemma MembershipOffersStep(s: Store, t: MembershipTxn)
    requires OffersSound(s.invitations, s.issued) && GrantsSound(s.log, s.invitations, s.issued)
    requires MembershipLands(s, t)
    ensures OffersSound(MembershipTxnWritten(s, t).invitations, s.issued)
    ensures InvitationsEvolve(s.invitations, s.issued, MembershipTxnWritten(s, t).invitations)
    ensures GrantsSound(MembershipTxnWritten(s, t).log, MembershipTxnWritten(s, t).invitations, s.issued)
  {
    var s' := MembershipTxnWritten(s, t);
    if !t.Redeem? { FewerOffers(s.invitations, s.issued, s'.invitations); }
    GrantsEvolve(s.log, s.invitations, s.issued, s'.invitations, s.issued);
    if !t.PurgeEvents? { GrantsExtend(s.log, s'.log[|s.log|], s'.invitations, s.issued); }
  }

  lemma MembershipTxnKeepsSound(s: Store, t: MembershipTxn)
    requires Sound(s) && TellsRoles(t) && MembershipLands(s, t)
    ensures Sound(MembershipTxnWritten(s, t)) && Evolves(s, MembershipTxnWritten(s, t))
  {
    LogStep(s, t);
    MembershipOffersStep(s, t);
    var s' := MembershipTxnWritten(s, t);
    assert s'.accounts == s.accounts && s'.links == s.links && s'.sessions == s.sessions;
    assert s'.minted == s.minted && s'.issued == s.issued;
    MembershipRowsStep(s, t);
  }

  lemma MembershipRowsStep(s: Store, t: MembershipTxn)
    requires RowsSound(s) && TellsRoles(t) && MembershipLands(s, t)
    ensures RowsSound(MembershipTxnWritten(s, t))
  {
  }

  // ----- invitations

  /** Only a fresh identifier is ever added, and a saved record is in one terminal state at most. */
  ghost predicate OffersWell(s: Store, t: InvitationTxn) {
    && (t.AddInvitation? ==> t.id !in s.issued && t.offer.redeemedAt.None? && t.offer.revokedAt.None?)
    && (t.SaveInvitation? ==> OneEnd(t.snapshot))
  }

  lemma InvitationsStep(s: Store, t: InvitationTxn)
    requires OffersSound(s.invitations, s.issued) && OffersWell(s, t) && InvitationLands(s, t)
    ensures OffersSound(InvitationsWritten(s, t), if t.AddInvitation? then s.issued + {t.id} else s.issued)
    ensures InvitationsEvolve(s.invitations, s.issued, InvitationsWritten(s, t))
  {
    match t
    case AddInvitation(_, _) =>
    case ReadInvitation(_, _) =>
    case ListInvitations(_, _) =>
    case SaveInvitation(id, snapshot) =>
      assert LaterInvitation(s.invitations[id], Merged(s.invitations[id], snapshot));
    case DeleteOpenInvitation(_, _, _) => FewerOffers(s.invitations, s.issued, InvitationsWritten(s, t));
    case PurgeInvitations(_, _) => FewerOffers(s.invitations, s.issued, InvitationsWritten(s, t));
  }

  lemma InvitationTxnKeepsSound(s: Store, t: InvitationTxn)
    requires Sound(s) && OffersWell(s, t) && InvitationLands(s, t)
    ensures Sound(Apply(s, OfInvitation(t))) && Evolves(s, Apply(s, OfInvitation(t)))
  {
    InvitationsStep(s, t);
    var s' := Apply(s, OfInvitation(t));
    GrantsEvolve(s.log, s.invitations, s.issued, s'.invitations, s'.issued);
    SameRoles(s, s');
    forall id | id in s'.invitations ensures s'.invitations[id].organization in s'.organizations {
      if id in s.issued { assert LaterInvitation(s.invitations[id], s'.invitations[id]); }
    }
  }

  // ----- sessions

  lemma SessionsStep(s: Store, t: SessionTxn)
    requires SessionsSound(s.sessions, s.minted) && SessionLands(s, t) && (t.AddSession? ==> t.id !in s.minted)
    ensures SessionsSound(SessionsWritten(s, t), if t.AddSession? then s.minted + {t.id} else s.minted)
    ensures SessionsEvolve(s.sessions, s.minted, SessionsWritten(s, t))
  {
  }

  lemma SessionTxnKeepsSound(s: Store, t: SessionTxn)
    requires Sound(s) && SessionLands(s, t) && (t.AddSession? ==> t.id !in s.minted)
    ensures Sound(Apply(s, OfSession(t))) && Evolves(s, Apply(s, OfSession(t)))
  {
    SessionsStep(s, t);
    SameRoles(s, Apply(s, OfSession(t)));
  }

  // ----- every run -----------------------------------------------------------------------------

  lemma SavedRecordIsSound(h: seq<Store>, id: InvitationId, from: Invitation, record: Invitation)
    requires Settled(h) && SeenInvitation(h, id, from) && Reaches(from, record)
    ensures OneEnd(record)
  {
    var k :| 0 <= k < |h| && id in h[k].invitations && h[k].invitations[id] == from;
    assert Sound(h[k]);
  }

  /** The history-free content of what the services check. */
  ghost predicate Meant(s: Store, t: Txn) {
    match t
    case OfAccount(a) => WritesLater(s, a) && AddsWhole(a)
    case OfMembership(m) => TellsRoles(m)
    case OfInvitation(i) => OffersWell(s, i)
    case OfSession(e) => e.AddSession? ==> e.id !in s.minted
  }

  lemma PermittedIsMeant(h: seq<Store>, t: Txn)
    requires Settled(h) && Permitted(h, t)
    ensures Meant(Now(h), t)
  {
    match t
    case OfAccount(a) => WrittenRecordIsLater(h, a);
    case OfMembership(m) =>
    case OfInvitation(i) =>
      if i.SaveInvitation? {
        var from :| SeenInvitation(h, i.id, from) && Reaches(from, i.snapshot);
        SavedRecordIsSound(h, i.id, from, i.snapshot);
      }
    case OfSession(_) =>
  }

  lemma StepKeepsSound(s: Store, t: Txn)
    requires Sound(s) && Meant(s, t)
    ensures Sound(Apply(s, t)) && Evolves(s, Apply(s, t))
  {
    if Lands(s, t) {
      match t
      case OfAccount(a) => AccountTxnKeepsSound(s, a);
      case OfMembership(m) => MembershipTxnKeepsSound(s, m);
      case OfInvitation(i) => InvitationTxnKeepsSound(s, i);
      case OfSession(e) => SessionTxnKeepsSound(s, e);
    }
  }

  lemma SettledExtends(g: seq<Store>, s: Store)
    requires Settled(g) && Sound(s) && Evolves(Now(g), s)
    ensures Settled(g + [s])
  {
    var h := g + [s];
    forall k | 0 <= k < |h| ensures Sound(h[k]) && Evolves(h[k], h[|h| - 1]) {
      if k < |g| {
        assert h[k] == g[k];
        EvolvesTransitive(g[k], Now(g), s);
      }
    }
  }

  lemma StepSettles(g: seq<Store>, t: Txn)
    requires Settled(g) && Permitted(g, t)
    ensures Settled(g + [Apply(Now(g), t)])
  {
    PermittedIsMeant(g, t);
    StepKeepsSound(Now(g), t);
    SettledExtends(g, Apply(Now(g), t));
  }

  lemma RunStep(h: seq<Store>, ts: seq<Txn>, n: nat)
    requires Run(h, ts) && n < |ts| && Settled(h[..n + 1])
    ensures Settled(h[..n + 2])
  {
    assert StepAt(h, ts, n);
    StepSettles(h[..n + 1], ts[n]);
    assert h[..n + 2] == h[..n + 1] + [h[n + 1]];
  }

  /** Every state of a run is sound, and every earlier state evolves into every later one. */
  lemma {:induction false} RunsSettle(h: seq<Store>, ts: seq<Txn>, n: nat)
    requires Run(h, ts) && n < |h|
    ensures Settled(h[..n + 1])
  {
    if n == 0 {
      assert h[..1] == [EMPTY];
    } else {
      RunsSettle(h, ts, n - 1);
      RunStep(h, ts, n - 1);
    }
  }

  /** Any two states of a run, the earlier first. */
  lemma RunOrdered(h: seq<Store>, ts: seq<Txn>, i: nat, j: nat)
    requires Run(h, ts) && i <= j < |h|
    ensures Settled(h[..j + 1]) && Sound(h[i]) && Sound(h[j]) && Evolves(h[i], h[j])
  {
    var g := h[..j + 1];
    RunsSettle(h, ts, j);
    assert g[i] == h[i] && g[j] == h[j];
  }
}
