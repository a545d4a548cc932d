/** The sealed records of the identity store and the pure transitions each one offers. */
module Records {

  datatype Option<+T> = None | Some(value: T)

  /** A UTC instant. Only the order of instants matters to the store. */
  type Moment = int

  type AccountId = int
  type OrgId = int
  type InvitationId = int
  type SessionId = int
  type EventId = int

  /** The canonical form of a login address; two spellings of one mailbox are one `Address`. */
  type Address = int

  /** The five credential columns, present or absent as one whole. */
  type Verifier = int

  /** A provider subject: the composite key of an external-identity link. */
  datatype Subject = Subject(provider: int, name: int)

  datatype Role = Owner | Member

  /** What an owner-reducing operation reports. */
  datatype Outcome = Applied | FinalOwner | NotApplicable

  datatype Account = Account(
    email: Option<Address>, verifier: Option<Verifier>, disabledAt: Option<Moment>)
  {
    predicate IsPurged() { email.None? }

    predicate CanAct() { disabledAt.None? && !IsPurged() }

    predicate CanAuthenticate(hasExternalIdentity: bool) {
      CanAct() && (verifier.Some? || hasExternalIdentity)
    }

    predicate IsPurgeableAt(horizon: Moment) {
      disabledAt.Some? && disabledAt.value <= horizon && !IsPurged()
    }

    function Disabled(now: Moment): Account { Account(email, None, Some(now)) }

    function Enabled(): Account { Account(email, verifier, None) }

    function Purged(): Account { Account(None, None, disabledAt) }
  }

  datatype Invitation = Invitation(
    organization: OrgId, intendedRole: Role, target: Address, verifier: Option<Verifier>,
    expiresAt: Moment, issuedBy: AccountId, issuedAt: Moment,
    redeemedAt: Option<Moment>, revokedAt: Option<Moment>)
  {
    predicate IsExpiredAt(moment: Moment) { expiresAt <= moment }

    predicate IsOpenAt(moment: Moment) {
      redeemedAt.None? && revokedAt.None? && !IsExpiredAt(moment)
    }

    /** The redeemed form; `None` where the record refuses the transition. */
    function Redeemed(at: Moment): (redeemed: Option<Invitation>)
      ensures redeemed.Some? <==> redeemedAt.None? && revokedAt.None? && at < expiresAt
      ensures redeemed.Some? ==> redeemed.value.redeemedAt == Some(at) && redeemed.value.verifier.None?
    {
      if IsOpenAt(at) then Some(this.(verifier := None, redeemedAt := Some(at))) else None
    }

    function Revoked(at: Moment): (revoked: Option<Invitation>)
      ensures revoked.Some? <==> redeemedAt.None? && revokedAt.None? && at < expiresAt
      ensures revoked.Some? ==> revoked.value.revokedAt == Some(at) && revoked.value.verifier.None?
    {
      if IsOpenAt(at) then Some(this.(verifier := None, revokedAt := Some(at))) else None
    }

    function VerifierDestroyed(at: Moment): (destroyed: Option<Invitation>)
      ensures destroyed.Some? <==> verifier.None? || expiresAt <= at
      ensures destroyed.Some? ==> destroyed.value == this.(verifier := None)
    {
      if verifier.None? then Some(this)
      else if IsExpiredAt(at) then Some(this.(verifier := None))
      else None
    }

    /** Everything but the verifier and the two terminal timestamps is fixed at issuance. */
    predicate SameOffer(other: Invitation) {
      && organization == other.organization && intendedRole == other.intendedRole
      && target == other.target && expiresAt == other.expiresAt
      && issuedBy == other.issuedBy && issuedAt == other.issuedAt
    }
  }

  datatype Session = Session(
    account: AccountId, activeOrganization: Option<OrgId>,
    createdAt: Moment, expiresAt: Moment, revokedAt: Option<Moment>)
  {
    predicate IsLiveAt(moment: Moment) { moment < expiresAt && revokedAt.None? }
  }

  datatype MembershipEvent = MembershipEvent(
    id: EventId, organization: OrgId, account: AccountId, actor: AccountId,
    priorRole: Option<Role>, nextRole: Option<Role>, occurredAt: Moment)
}
