/**
 * The identity tables as one value, and what each store transaction makes of them.
 *
 * `log` and `issued`/`minted` are not columns: `log` is every membership event ever written, before
 * the retention sweep, with the invitation (if any) the write consumed; `issued` and `minted` are
 * the invitation and session identifiers ever drawn.
 */
module IdentityState {
  import opened Records

  datatype LogEntry = LogEntry(event: MembershipEvent, via: Option<InvitationId>)

  datatype Store = Store(
    accounts: map<AccountId, Account>,
    organizations: set<OrgId>,
    scopes: map<OrgId, int>,
    memberships: map<(OrgId, AccountId), Role>,
    links: map<Subject, AccountId>,
    invitations: map<InvitationId, Invitation>,
    sessions: map<SessionId, Session>,
    events: seq<MembershipEvent>,
    log: seq<LogEntry>,
    issued: set<InvitationId>,
    minted: set<SessionId>)

  const EMPTY := Store(map[], {}, map[], map[], map[], map[], map[], [], [], {}, {})

  /** An organization's opaque isolation key, unique among them all. */
  datatype IsolationScope = IsolationScope(organization: OrgId, key: int)

  datatype Membership = Membership(organization: OrgId, account: AccountId, role: Role)

  // ----- the effective-owner rule --------------------------------------------------------------

  predicate Owns(s: Store, org: OrgId, account: AccountId) {
    (org, account) in s.memberships && s.memberships[(org, account)] == Owner
  }

  predicate HasLink(s: Store, account: AccountId) {
    exists subject :: subject in s.links && s.links[subject] == account
  }

  /** An owner who can act: owner role, enabled, not purged, and able to authenticate. */
  predicate EffectiveOwner(s: Store, org: OrgId, account: AccountId) {
    Owns(s, org, account) && account in s.accounts
    && s.accounts[account].CanAuthenticate(HasLink(s, account))
  }

  function OtherEffectiveOwners(s: Store, org: OrgId, account: AccountId): set<AccountId> {
    set other | other in s.accounts && other != account && EffectiveOwner(s, org, other)
  }

  ghost predicate HasEffectiveOwner(s: Store, org: OrgId) {
    exists account :: EffectiveOwner(s, org, account)
  }

  /** Losing `account` would leave some organization it owns with no other effective owner. */
  ghost predicate Strands(s: Store, account: AccountId) {
    exists org :: Owns(s, org, account) && OtherEffectiveOwners(s, org, account) == {}
  }

  ghost function ReductionOutcome(s: Store, account: AccountId): Outcome {
    if account !in s.accounts then NotApplicable
    else if Strands(s, account) then FinalOwner
    else Applied
  }

  function MembershipOutcome(s: Store, org: OrgId, account: AccountId): Outcome {
    if (org, account) !in s.memberships then NotApplicable
    else if Owns(s, org, account) && OtherEffectiveOwners(s, org, account) == {} then FinalOwner
    else Applied
  }

  // ----- single writes -------------------------------------------------------------------------

  function Recorded(s: Store, event: MembershipEvent, via: Option<InvitationId>): Store {
    s.(events := s.events + [event], log := s.log + [LogEntry(event, via)])
  }

  /** The conditional account update: a purged row is terminal. */
  function AccountWritten(s: Store, id: AccountId, updated: Account): Store {
    if id in s.accounts && !s.accounts[id].IsPurged() then s.(accounts := s.accounts[id := updated]) else s
  }

  /** Which rows one cascade reaches: an open offer to the recipient or from the issuer. */
  predicate Cascaded(
    invitation: Invitation, org: Option<OrgId>, target: Option<Address>, issuer: Option<AccountId>,
    now: Option<Moment>)
  {
    && (|| (target.Some? && invitation.target == target.value)
        || (issuer.Some? && invitation.issuedBy == issuer.value))
    && invitation.redeemedAt.None? && invitation.revokedAt.None?
    && (org.Some? ==> invitation.organization == org.value)
    && (now.Some? ==> invitation.expiresAt > now.value)
  }

  function CascadedAway(
    invitations: map<InvitationId, Invitation>, org: Option<OrgId>, target: Option<Address>,
    issuer: Option<AccountId>, now: Option<Moment>): map<InvitationId, Invitation>
  {
    map id | id in invitations && !Cascaded(invitations[id], org, target, issuer, now) :: invitations[id]
  }

  function EmailOf(s: Store, account: AccountId): Option<Address> {
    if account in s.accounts then s.accounts[account].email else None
  }

  predicate EmailTaken(s: Store, email: Option<Address>) {
    email.Some? && exists other :: other in s.accounts && s.accounts[other].email == email
  }

  function DemoteWritten(s: Store, org: OrgId, account: AccountId, event: MembershipEvent): Store {
    Recorded(s.(memberships := s.memberships[(org, account) := Member]), event, None)
  }

  function RevokeWritten(s: Store, org: OrgId, account: AccountId, event: MembershipEvent, now: Moment): Store {
    Recorded(
      s.(invitations := CascadedAway(s.invitations, Some(org), EmailOf(s, account), Some(account), Some(now)),
         memberships := s.memberships - {(org, account)}),
      event, None)
  }

  function UnlinkWritten(s: Store, subject: Subject): Store { s.(links := s.links - {subject}) }

  /** The account would keep a way to log in without this link. */
  predicate KeepsLogin(s: Store, account: AccountId, subject: Subject) {
    || (account in s.accounts && s.accounts[account].verifier.Some?)
    || exists other :: other in s.links && other != subject && s.links[other] == account
  }

  function Spent(invitation: Invitation): Invitation { invitation.(verifier := None) }

  function Touched(invitations: map<InvitationId, Invitation>, which: set<InvitationId>, now: Moment)
    : map<InvitationId, Invitation>
  {
    map id | id in invitations ::
      if id in which && invitations[id].IsExpiredAt(now) then Spent(invitations[id]) else invitations[id]
  }

  predicate ConflictsWithTerminalState(snapshot: Invitation, row: Invitation) {
    || (snapshot.redeemedAt.Some? && row.revokedAt.Some?)
    || (snapshot.revokedAt.Some? && row.redeemedAt.Some?)
  }

  /** The monotone save: terminal timestamps are write-once and destruction is one-way. */
  function Merged(row: Invitation, snapshot: Invitation): Invitation {
    row.(
      redeemedAt := if row.redeemedAt.None? then snapshot.redeemedAt else row.redeemedAt,
      revokedAt := if row.revokedAt.None? then snapshot.revokedAt else row.revokedAt,
      verifier := if snapshot.verifier.None? then None else row.verifier)
  }

  predicate Redeemable(s: Store, id: InvitationId, account: AccountId, org: OrgId, now: Moment, session: SessionId) {
    && account in s.accounts && s.accounts[account].CanAct()
    && session in s.sessions && s.sessions[session].IsLiveAt(now)
    && (org, account) !in s.memberships
    && id in s.invitations && s.invitations[id].organization == org && s.invitations[id].IsOpenAt(now)
  }

  predicate SpentInvitation(invitation: Invitation, horizon: Moment, now: Moment) {
    || (invitation.redeemedAt.None? && (invitation.revokedAt.Some? || invitation.expiresAt <= now))
    || (invitation.redeemedAt.Some? && invitation.redeemedAt.value <= horizon)
  }

  predicate DeadSession(session: Session, horizon: Moment) {
    || (session.revokedAt.Some? && session.revokedAt.value <= horizon)
    || (session.revokedAt.None? && session.expiresAt <= horizon)
  }

  /** Revoke every live session of the given accounts, leaving the dead ones as they are. */
  function SessionsEnded(sessions: map<SessionId, Session>, accounts: set<AccountId>, now: Moment)
    : map<SessionId, Session>
  {
    map id | id in sessions ::
      if sessions[id].account in accounts && sessions[id].revokedAt.None?
      then sessions[id].(revokedAt := Some(now)) else sessions[id]
  }

  function LinkedTo(s: Store, provider: int): set<AccountId> {
    set subject | subject in s.links && subject.provider == provider :: s.links[subject]
  }

  function EventsKept(events: seq<MembershipEvent>, horizon: Moment): seq<MembershipEvent> {
    if events == [] then []
    else if events[0].occurredAt <= horizon then EventsKept(events[1..], horizon)
    else [events[0]] + EventsKept(events[1..], horizon)
  }

  // ----- transactions --------------------------------------------------------------------------

  datatype AccountTxn =
    | AddAccount(account: AccountId, record: Account, link: Option<Subject>)
    | ReduceOwner(account: AccountId, record: Account)
    | SaveAccount(account: AccountId, record: Account)
    | PurgeAccount(account: AccountId, horizon: Moment)
    | LinkIdentity(subject: Subject, account: AccountId)
    | UnlinkIdentity(subject: Subject)

  datatype MembershipTxn =
    | CreateOrganization(org: OrgId, member: Membership, scope: IsolationScope, event: MembershipEvent)
    | Promote(member: Membership, event: MembershipEvent)
    | Demote(org: OrgId, account: AccountId, actor: AccountId, eventId: EventId, now: Moment)
    | Revoke(org: OrgId, account: AccountId, actor: AccountId, eventId: EventId, now: Moment)
    | Redeem(id: InvitationId, account: AccountId, org: OrgId, role: Role, session: SessionId,
             event: MembershipEvent, now: Moment)
    | PurgeEvents(horizon: Moment)

  datatype InvitationTxn =
    | AddInvitation(id: InvitationId, offer: Invitation)
    | ReadInvitation(id: InvitationId, now: Moment)
    | ListInvitations(org: OrgId, now: Moment)
    | SaveInvitation(id: InvitationId, snapshot: Invitation)
    | DeleteOpenInvitation(org: OrgId, id: InvitationId, now: Moment)
    | PurgeInvitations(horizon: Moment, now: Moment)

  datatype SessionTxn =
    | AddSession(id: SessionId, issue: Session)
    | PointSession(id: SessionId, target: Option<OrgId>)
    | RevokeSession(id: SessionId, now: Moment)
    | RevokeAllForAccount(account: AccountId, now: Moment)
    | RevokeAllForProvider(provider: int, now: Moment)
    | PurgeSessions(horizon: Moment)

  datatype Txn =
    | OfAccount(a: AccountTxn)
    | OfMembership(m: MembershipTxn)
    | OfInvitation(i: InvitationTxn)
    | OfSession(s: SessionTxn)

  function InvitationsOf(s: Store, org: OrgId): set<InvitationId> {
    set id | id in s.invitations && s.invitations[id].organization == org
  }

  /** Whether an account transaction's writes land; otherwise it changes nothing. */
  ghost predicate AccountLands(s: Store, t: AccountTxn) {
    match t
    case AddAccount(id, record, link) =>
      id !in s.accounts && !EmailTaken(s, record.email) && (link.Some? ==> link.value !in s.links)
    case ReduceOwner(id, _) => ReductionOutcome(s, id) == Applied && !s.accounts[id].IsPurged()
    case SaveAccount(id, _) => id in s.accounts && !s.accounts[id].IsPurged()
    case PurgeAccount(id, horizon) => id in s.accounts && s.accounts[id].IsPurgeableAt(horizon)
    case LinkIdentity(subject, id) => subject !in s.links && id in s.accounts
    case UnlinkIdentity(subject) =>
      subject in s.links
      && (KeepsLogin(s, s.links[subject], subject) || ReductionOutcome(s, s.links[subject]) != FinalOwner)
  }

  ghost function AccountTxnWritten(s: Store, t: AccountTxn): Store
    requires AccountLands(s, t)
  {
    match t
    case AddAccount(id, record, link) =>
      s.(accounts := s.accounts[id := record], links := if link.Some? then s.links[link.value := id] else s.links)
    case ReduceOwner(id, record) => AccountWritten(s, id, record)
    case SaveAccount(id, record) => AccountWritten(s, id, record)
    case PurgeAccount(id, _) =>
      s.(invitations := CascadedAway(s.invitations, None, s.accounts[id].email, None, None),
         accounts := s.accounts[id := s.accounts[id].Purged()])
    case LinkIdentity(subject, id) => s.(links := s.links[subject := id])
    case UnlinkIdentity(subject) => UnlinkWritten(s, subject)
  }

  ghost predicate MembershipLands(s: Store, t: MembershipTxn) {
    match t
    case CreateOrganization(org, member, scope, event) =>
      && member.organization == org && scope.organization == org
      && event.organization == org && event.account == member.account
      && org !in s.organizations && member.account in s.accounts && scope.key !in s.scopes.Values
    case Promote(member, event) =>
      && event.organization == member.organization && event.account == member.account
      && event.nextRole == Some(member.role)
      && (member.organization, member.account) in s.memberships
      && event.priorRole == Some(s.memberships[(member.organization, member.account)])
    case Demote(org, account, _, _, _) => MembershipOutcome(s, org, account) == Applied
    case Revoke(org, account, _, _, _) => MembershipOutcome(s, org, account) == Applied
    case Redeem(id, account, org, _, session, _, now) => Redeemable(s, id, account, org, now, session)
    case PurgeEvents(_) => true
  }

  ghost function MembershipTxnWritten(s: Store, t: MembershipTxn): Store
    requires MembershipLands(s, t)
  {
    match t
    case CreateOrganization(org, member, scope, event) =>
      Recorded(
        s.(organizations := s.organizations + {org}, scopes := s.scopes[org := scope.key],
           memberships := s.memberships[(org, member.account) := member.role]),
        event, None)
    case Promote(member, event) =>
      Recorded(
        s.(memberships := s.memberships[(member.organization, member.account) := member.role]), event, None)
    case Demote(org, account, actor, id, now) =>
      var prior := Some(s.memberships[(org, account)]);
      DemoteWritten(s, org, account, MembershipEvent(id, org, account, actor, prior, Some(Member), now))
    case Revoke(org, account, actor, id, now) =>
      var prior := Some(s.memberships[(org, account)]);
      RevokeWritten(s, org, account, MembershipEvent(id, org, account, actor, prior, None, now), now)
    case Redeem(id, account, org, role, _, event, now) =>
      Recorded(
        s.(invitations := s.invitations[id := Spent(s.invitations[id]).(redeemedAt := Some(now))],
           memberships := s.memberships[(org, account) := role]),
        event, Some(id))
    case PurgeEvents(horizon) => s.(events := EventsKept(s.events, horizon))
  }

  predicate InvitationLands(s: Store, t: InvitationTxn) {
    match t
    case AddInvitation(id, offer) => id !in s.invitations && offer.organization in s.organizations
    case ReadInvitation(id, _) => id in s.invitations
    case ListInvitations(_, _) => true
    case SaveInvitation(id, snapshot) =>
      id in s.invitations && !ConflictsWithTerminalState(snapshot, s.invitations[id])
    case DeleteOpenInvitation(org, id, now) =>
      id in s.invitations && s.invitations[id].organization == org && s.invitations[id].IsOpenAt(now)
    case PurgeInvitations(_, _) => true
  }

  function InvitationsWritten(s: Store, t: InvitationTxn): map<InvitationId, Invitation>
    requires InvitationLands(s, t)
  {
    match t
    case AddInvitation(id, offer) => s.invitations[id := offer]
    case ReadInvitation(id, now) => Touched(s.invitations, {id}, now)
    case ListInvitations(org, now) => Touched(s.invitations, InvitationsOf(s, org), now)
    case SaveInvitation(id, snapshot) => s.invitations[id := Merged(s.invitations[id], snapshot)]
    case DeleteOpenInvitation(_, id, _) => s.invitations - {id}
    case PurgeInvitations(horizon, now) =>
      map id | id in s.invitations && !SpentInvitation(s.invitations[id], horizon, now) :: s.invitations[id]
  }

  predicate SessionLands(s: Store, t: SessionTxn) {
    match t
    case AddSession(id, issue) => id !in s.sessions && issue.account in s.accounts
    case PointSession(id, target) =>
      && id in s.sessions && s.sessions[id].revokedAt.None?
      && (target.Some? ==> target.value in s.organizations)
    case RevokeSession(id, _) => id in s.sessions && s.sessions[id].revokedAt.None?
    case _ => true
  }

  function SessionsWritten(s: Store, t: SessionTxn): map<SessionId, Session>
    requires SessionLands(s, t)
  {
    match t
    case AddSession(id, issue) => s.sessions[id := issue]
    case PointSession(id, target) => s.sessions[id := s.sessions[id].(activeOrganization := target)]
    case RevokeSession(id, now) => s.sessions[id := s.sessions[id].(revokedAt := Some(now))]
    case RevokeAllForAccount(account, now) => SessionsEnded(s.sessions, {account}, now)
    case RevokeAllForProvider(provider, now) => SessionsEnded(s.sessions, LinkedTo(s, provider), now)
    case PurgeSessions(horizon) =>
      map id | id in s.sessions && !DeadSession(s.sessions[id], horizon) :: s.sessions[id]
  }

  ghost predicate Lands(s: Store, t: Txn) {
    match t
    case OfAccount(a) => AccountLands(s, a)
    case OfMembership(m) => MembershipLands(s, m)
    case OfInvitation(i) => InvitationLands(s, i)
    case OfSession(e) => SessionLands(s, e)
  }

  /** One committed transaction. A refused one leaves the tables as they were. */
  ghost function Apply(s: Store, t: Txn): Store {
    if !Lands(s, t) then s
    else
      match t
      case OfAccount(a) => AccountTxnWritten(s, a)
      case OfMembership(m) => MembershipTxnWritten(s, m)
      case OfInvitation(i) =>
        s.(invitations := InvitationsWritten(s, i),
           issued := if i.AddInvitation? then s.issued + {i.id} else s.issued)
      case OfSession(e) =>
        s.(sessions := SessionsWritten(s, e), minted := if e.AddSession? then s.minted + {e.id} else s.minted)
  }
}
