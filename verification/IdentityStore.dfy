/** The identity store: one method per transaction, each proved to commit what `Apply` says. */
module IdentityStore {
  import opened Records
  import opened IdentityState
  import Collections

  /** Issuance order, ties broken by identifier. */
  predicate IssuedBefore(invitations: map<InvitationId, Invitation>, a: InvitationId, b: InvitationId) {
    && a in invitations && b in invitations
    && (|| invitations[a].issuedAt < invitations[b].issuedAt
        || (invitations[a].issuedAt == invitations[b].issuedAt && a < b))
  }

  /** One row as a listing leaves it. */
  ghost function Listed(
    before: map<InvitationId, Invitation>, seen: set<InvitationId>, id: InvitationId, now: Moment): Invitation
    requires id in before
  {
    if id in seen && before[id].IsExpiredAt(now) then Spent(before[id]) else before[id]
  }

  lemma AllListed(
    before: map<InvitationId, Invitation>, after: map<InvitationId, Invitation>, rows: set<InvitationId>, now: Moment)
    requires after.Keys == before.Keys && forall id :: id in after ==> after[id] == Listed(before, rows, id, now)
    ensures after == Touched(before, rows, now)
  {
    forall id | id in after ensures after[id] == Touched(before, rows, now)[id] {
    }
  }

  /** A sweep of invitations keeps open offers and recent redemptions, as they were. */
  method SweepInvitations(before: map<InvitationId, Invitation>, horizon: Moment, now: Moment)
    returns (after: map<InvitationId, Invitation>, purged: nat)
    ensures after == map id | id in before && !SpentInvitation(before[id], horizon, now) :: before[id]
    ensures forall id :: id in before ==>
      (id in after <==>
        if before[id].redeemedAt.Some? then before[id].redeemedAt.value > horizon else before[id].IsOpenAt(now))
    ensures purged == |before.Keys - after.Keys|
  {
    var spent := set id | id in before && SpentInvitation(before[id], horizon, now);
    after := map id | id in before && !SpentInvitation(before[id], horizon, now) :: before[id];
    purged := |spent|;
    assert spent == before.Keys - after.Keys;
  }

  /** When a session's authority ended: revoked, or else expired. */
  function DiedAt(session: Session): Moment {
    if session.revokedAt.Some? then session.revokedAt.value else session.expiresAt
  }

  /** A sweep of sessions keeps those that died after the horizon, as they were. */
  method SweepSessions(before: map<SessionId, Session>, horizon: Moment)
    returns (after: map<SessionId, Session>, purged: nat)
    ensures after == map id | id in before && !DeadSession(before[id], horizon) :: before[id]
    ensures forall id :: id in before ==> (id in after <==> DiedAt(before[id]) > horizon)
    ensures forall id, moment :: id in before && horizon <= moment && before[id].IsLiveAt(moment) ==> id in after
    ensures purged == |before.Keys - after.Keys|
  {
    var dead := set id | id in before && DeadSession(before[id], horizon);
    after := map id | id in before && !DeadSession(before[id], horizon) :: before[id];
    purged := |dead|;
    assert dead == before.Keys - after.Keys;
  }

  lemma NextEvent(events: seq<MembershipEvent>, i: nat, horizon: Moment)
    requires i < |events|
    ensures EventsKept(events[i..], horizon)
         == (if events[i].occurredAt > horizon then [events[i]] else []) + EventsKept(events[i + 1..], horizon)
  {
    assert events[i..][1..] == events[i + 1..];
  }

  /** A sweep of events keeps those past the horizon, in order. */
  method Retain(events: seq<MembershipEvent>, horizon: Moment) returns (kept: seq<MembershipEvent>)
    ensures kept == EventsKept(events, horizon) && |kept| <= |events|
  {
    kept := [];
    var i := 0;
    while i < |events|
      invariant i <= |events| && |kept| <= i
      invariant kept + EventsKept(events[i..], horizon) == EventsKept(events, horizon)
    {
      NextEvent(events, i, horizon);
      if events[i].occurredAt > horizon { kept := kept + [events[i]]; }
      i := i + 1;
    }
    assert kept == EventsKept(events, horizon);
  }

  lemma CascadeIs(
    before: map<InvitationId, Invitation>, after: map<InvitationId, Invitation>, org: Option<OrgId>,
    target: Option<Address>, issuer: Option<AccountId>, now: Option<Moment>)
    requires forall id :: id in after <==> id in before && !Cascaded(before[id], org, target, issuer, now)
    requires forall id :: id in after ==> after[id] == before[id]
    ensures after == CascadedAway(before, org, target, issuer, now)
  {
    var rest := CascadedAway(before, org, target, issuer, now);
    forall id ensures id in after <==> id in rest {
    }
    forall id | id in after ensures after[id] == rest[id] {
    }
  }

  /** Disabled by the horizon and not purged yet, column by column. */
  predicate Due(account: Account, horizon: Moment) {
    account.disabledAt.Some? && account.disabledAt.value <= horizon && account.email.Some?
  }

  class SqlIdentityStore {
    var accounts: map<AccountId, Account>
    var organizations: set<OrgId>
    var scopes: map<OrgId, int>
    var memberships: map<(OrgId, AccountId), Role>
    var links: map<Subject, AccountId>
    var invitations: map<InvitationId, Invitation>
    var sessions: map<SessionId, Session>
    var events: seq<MembershipEvent>
    ghost var log: seq<LogEntry>
    ghost var issued: set<InvitationId>
    ghost var minted: set<SessionId>

    constructor ()
      ensures State() == EMPTY
    {
      accounts, organizations, scopes, memberships, links := map[], {}, map[], map[], map[];
      invitations, sessions, events := map[], map[], [];
      log, issued, minted := [], {}, {};
    }

    /** The tables themselves. */
    function Tables(): Store
      reads this
    {
      Store(accounts, organizations, scopes, memberships, links, invitations, sessions, events, [], {}, {})
    }

    ghost function State(): Store
      reads this
    {
      Tables().(log := log, issued := issued, minted := minted)
    }

    method Record(event: MembershipEvent, ghost via: Option<InvitationId>)
      modifies this`events, this`log
      ensures State() == Recorded(old(State()), event, via)
    {
      events := events + [event];
      log := log + [LogEntry(event, via)];
    }

    // ----- accounts ----------------------------------------------------------------------------

    method AddAccount(id: AccountId, record: Account) returns (added: bool)
      modifies this
      ensures State() == Apply(old(State()), OfAccount(AccountTxn.AddAccount(id, record, None)))
      ensures added == Lands(old(State()), OfAccount(AccountTxn.AddAccount(id, record, None)))
    {
      var taken := record.email.Some? && exists other :: other in accounts && accounts[other].email == record.email;
      added := id !in accounts && !taken;
      if added { accounts := accounts[id := record]; }
    }

    method AddAccountWithExternalIdentity(id: AccountId, record: Account, subject: Subject) returns (added: bool)
      modifies this
      ensures State() == Apply(old(State()), OfAccount(AccountTxn.AddAccount(id, record, Some(subject))))
      ensures added == Lands(old(State()), OfAccount(AccountTxn.AddAccount(id, record, Some(subject))))
    {
      var taken := record.email.Some? && exists other :: other in accounts && accounts[other].email == record.email;
      added := id !in accounts && !taken;
      if added {
        var before := accounts;
        accounts := accounts[id := record];
        if subject in links {
          accounts, added := before, false;
        } else {
          links := links[subject := id];
        }
      }
    }

    method ApplyAccount(id: AccountId, record: Account) returns (written: bool)
      modifies this`accounts
      ensures State() == AccountWritten(old(State()), id, record)
      ensures written <==> id in old(accounts) && old(accounts[id].email).Some?
      ensures accounts == if written then old(accounts)[id := record] else old(accounts)
    {
      written := id in accounts && accounts[id].email.Some?;
      if written { accounts := accounts[id := record]; }
    }

    method SaveAccount(id: AccountId, record: Account) returns (written: bool)
      modifies this
      ensures State() == Apply(old(State()), OfAccount(AccountTxn.SaveAccount(id, record)))
      ensures written == Lands(old(State()), OfAccount(AccountTxn.SaveAccount(id, record)))
    {
      written := ApplyAccount(id, record);
    }

    method PurgeIfStillEligible(id: AccountId, horizon: Moment) returns (purged: bool)
      modifies this
      ensures State() == Apply(old(State()), OfAccount(AccountTxn.PurgeAccount(id, horizon)))
      ensures purged == Lands(old(State()), OfAccount(AccountTxn.PurgeAccount(id, horizon)))
    {
      if id !in accounts || accounts[id].disabledAt.None? { return false; }
      if accounts[id].disabledAt.value > horizon || accounts[id].email.None? { return false; }
      var email := accounts[id].email.value;
      invitations := map i | i in invitations
        && !(invitations[i].target == email && invitations[i].redeemedAt.None? && invitations[i].revokedAt.None?)
        :: invitations[i];
      CascadeIs(old(invitations), invitations, None, Some(email), None, None);
      accounts := accounts[id := accounts[id].(email := None)];
      accounts := accounts[id := accounts[id].(verifier := None)];
      return true;
    }

    /** One retention pass: every account due at the horizon is purged once, and no other account changes. */
    method SweepAccounts(horizon: Moment) returns (purged: nat)
      modifies this
      ensures forall id :: id in accounts <==> id in old(accounts)
      ensures forall id :: id in accounts ==>
        accounts[id] == if old(accounts)[id].IsPurgeableAt(horizon)
                        then old(accounts)[id].(email := None, verifier := None) else old(accounts)[id]
      ensures purged == |set id | id in old(accounts) && old(accounts)[id].IsPurgeableAt(horizon)|
      ensures memberships == old(memberships) && links == old(links) && log == old(log) && events == old(events)
    {
      ghost var before := accounts;
      var due := set id | id in accounts && Due(accounts[id], horizon);
      var pending := due;
      purged := 0;
      while pending != {}
        invariant pending <= due && purged == |due| - |pending|
        invariant forall id :: id in accounts <==> id in before
        invariant forall id :: id in accounts ==>
          accounts[id] == if id in due - pending then before[id].Purged() else before[id]
        invariant memberships == old(memberships) && links == old(links) && log == old(log) && events == old(events)
        decreases pending
      {
        var id := Collections.Pick(pending);
        var done := PurgeIfStillEligible(id, horizon);
        purged := purged + if done then 1 else 0;
        pending := pending - {id};
      }
      assert due - pending == due;
      assert due == set id | id in before && before[id].IsPurgeableAt(horizon);
    }

    // ----- the owner guard ---------------------------------------------------------------------

    method RemainingOwners(org: OrgId, account: AccountId) returns (remaining: nat)
      ensures remaining == 0 <==> OtherEffectiveOwners(State(), org, account) == {}
    {
      var others := set other | other in accounts && other != account
        && (org, other) in memberships && memberships[(org, other)] == Owner
        && accounts[other].disabledAt.None? && accounts[other].email.Some?
        && (accounts[other].verifier.Some? || exists subject :: subject in links && links[subject] == other);
      assert others == OtherEffectiveOwners(State(), org, account);
      remaining := |others|;
    }

    /** Lock every owner row of every organization the account owns, then judge each of those organizations. */
    method OwnerReductionOutcome(account: AccountId)
      returns (outcome: Outcome, ghost rows: set<(OrgId, AccountId)>)
      ensures outcome == ReductionOutcome(State(), account)
      ensures forall row :: row in rows <==> Owns(State(), row.0, row.1) && Owns(State(), row.0, account)
    {
      var owned := set key | key in memberships && key.1 == account && memberships[key] == Owner :: key.0;
      var locked := set key | key in memberships && key.0 in owned && memberships[key] == Owner;
      rows := locked;
      assert forall org :: org in owned <==> Owns(State(), org, account) by {
        forall org | Owns(State(), org, account) ensures org in owned {
          assert (org, account) in memberships;
        }
      }
      if account !in accounts { return NotApplicable, rows; }
      var judged: set<OrgId> := {};
      var pending := set key | key in locked && key.1 == account :: key.0;
      assert forall org :: org in pending <==> Owns(State(), org, account) by {
        forall org | Owns(State(), org, account) ensures org in pending {
          assert (org, account) in locked;
        }
      }
      while pending != {}
        invariant forall org :: Owns(State(), org, account) <==> org in pending || org in judged
        invariant forall org :: org in judged ==> OtherEffectiveOwners(State(), org, account) != {}
        decreases pending
      {
        var org := Collections.Pick(pending);
        var remaining := RemainingOwners(org, account);
        if remaining == 0 { return FinalOwner, rows; }
        pending, judged := pending - {org}, judged + {org};
      }
      return Applied, rows;
    }

    method ApplyOwnerReducingChange(account: AccountId, record: Account) returns (outcome: Outcome)
      modifies this
      ensures State() == Apply(old(State()), OfAccount(AccountTxn.ReduceOwner(account, record)))
      ensures outcome == Applied <==> Lands(old(State()), OfAccount(AccountTxn.ReduceOwner(account, record)))
      ensures outcome == FinalOwner <==> old(ReductionOutcome(State(), account)) == FinalOwner
    {
      ghost var locked;
      outcome, locked := OwnerReductionOutcome(account);
      if outcome != Applied { return; }
      var written := ApplyAccount(account, record);
      if !written { return NotApplicable; }
    }

    // ----- organizations and memberships -------------------------------------------------------

    method CreateOrganization(org: OrgId, member: Membership, scope: IsolationScope, event: MembershipEvent)
      returns (created: bool)
      modifies this
      ensures State() == Apply(old(State()), OfMembership(MembershipTxn.CreateOrganization(org, member, scope, event)))
      ensures created == Lands(old(State()), OfMembership(MembershipTxn.CreateOrganization(org, member, scope, event)))
    {
      if member.organization != org { return false; }
      if scope.organization != org { return false; }
      if event.organization != org { return false; }
      if event.account != member.account { return false; }
      if org in organizations || member.account !in accounts || scope.key in scopes.Values { return false; }
      organizations := organizations + {org};
      memberships := memberships[(member.organization, member.account) := member.role];
      scopes := scopes[scope.organization := scope.key];
      Record(event, None);
      return true;
    }

    method PromoteMembership(member: Membership, event: MembershipEvent) returns (promoted: bool)
      modifies this
      ensures State() == Apply(old(State()), OfMembership(MembershipTxn.Promote(member, event)))
      ensures promoted == Lands(old(State()), OfMembership(MembershipTxn.Promote(member, event)))
    {
      if event.organization != member.organization { return false; }
      if event.account != member.account { return false; }
      if event.nextRole != Some(member.role) { return false; }
      var key := (member.organization, member.account);
      promoted := key in memberships && event.priorRole == Some(memberships[key]);
      if promoted {
        memberships := memberships[key := member.role];
        Record(event, None);
      }
    }

    /** The guard shared by removal and downgrade. */
    method MembershipChangeOutcome(org: OrgId, account: AccountId)
      returns (outcome: Outcome, ghost rows: set<(OrgId, AccountId)>)
      ensures outcome == MembershipOutcome(State(), org, account)
      ensures forall row :: row in rows <==> Owns(State(), row.0, row.1) && row.0 == org
    {
      var owners := set key | key in memberships && key.0 == org && memberships[key] == Owner;
      if (org, account) !in memberships { return NotApplicable, owners; }
      if (org, account) in owners {
        var remaining := RemainingOwners(org, account);
        if remaining == 0 { return FinalOwner, owners; }
      }
      return Applied, owners;
    }

    method RevokeMembership(org: OrgId, account: AccountId, actor: AccountId, eventId: EventId, now: Moment)
      returns (outcome: Outcome)
      modifies this
      ensures State() == Apply(old(State()), OfMembership(MembershipTxn.Revoke(org, account, actor, eventId, now)))
      ensures outcome == old(MembershipOutcome(State(), org, account))
    {
      ghost var locked;
      outcome, locked := MembershipChangeOutcome(org, account);
      if outcome != Applied { return; }
      var event := MembershipEvent(eventId, org, account, actor, Some(memberships[(org, account)]), None, now);
      var target := if account in accounts then accounts[account].email else None;
      invitations := map i | i in invitations
        && !(invitations[i].organization == org && invitations[i].expiresAt > now
             && invitations[i].redeemedAt.None? && invitations[i].revokedAt.None?
             && (Some(invitations[i].target) == target || invitations[i].issuedBy == account))
        :: invitations[i];
      CascadeIs(old(invitations), invitations, Some(org), target, Some(account), Some(now));
      memberships := memberships - {(org, account)};
      Record(event, None);
    }

    method DemoteMembership(org: OrgId, account: AccountId, actor: AccountId, eventId: EventId, now: Moment)
      returns (outcome: Outcome)
      modifies this
      ensures State() == Apply(old(State()), OfMembership(MembershipTxn.Demote(org, account, actor, eventId, now)))
      ensures outcome == old(MembershipOutcome(State(), org, account))
    {
      ghost var locked;
      outcome, locked := MembershipChangeOutcome(org, account);
      if outcome != Applied { return; }
      var event :=
        MembershipEvent(eventId, org, account, actor, Some(memberships[(org, account)]), Some(Member), now);
      memberships := memberships[(org, account) := Member];
      Record(event, None);
    }

    method PurgeExpiredEvents(horizon: Moment) returns (purged: nat)
      modifies this
      ensures State() == Apply(old(State()), OfMembership(MembershipTxn.PurgeEvents(horizon)))
      ensures purged == |old(events)| - |events|
    {
      var kept := Retain(events, horizon);
      purged := |events| - |kept|;
      events := kept;
    }

    // ----- external identities -----------------------------------------------------------------

    method LinkExternalIdentity(subject: Subject, account: AccountId) returns (linked: bool)
      modifies this
      ensures State() == Apply(old(State()), OfAccount(AccountTxn.LinkIdentity(subject, account)))
      ensures linked == Lands(old(State()), OfAccount(AccountTxn.LinkIdentity(subject, account)))
    {
      if subject in links || account !in accounts { return false; }
      links := links[subject := account];
      return true;
    }

    method UnlinkExternalIdentityOutcome(subject: Subject) returns (outcome: Outcome)
      modifies this
      ensures State() == Apply(old(State()), OfAccount(AccountTxn.UnlinkIdentity(subject)))
      ensures outcome == Applied <==> Lands(old(State()), OfAccount(AccountTxn.UnlinkIdentity(subject)))
      ensures outcome == NotApplicable <==> subject !in old(links)
    {
      if subject !in links { return NotApplicable; }
      var account := links[subject];
      var reduction, locked := OwnerReductionOutcome(account);
      var anotherLink := exists other :: other in links && other != subject && links[other] == account;
      var hasLocalVerifier := account in accounts && accounts[account].verifier.Some?;
      var losesCapability := !hasLocalVerifier && !anotherLink;
      if losesCapability && reduction == FinalOwner { return reduction; }
      links := links - {subject};
      return Applied;
    }

    // ----- invitations -------------------------------------------------------------------------

    method AddInvitation(id: InvitationId, offer: Invitation) returns (added: bool)
      modifies this
      ensures State() == Apply(old(State()), OfInvitation(InvitationTxn.AddInvitation(id, offer)))
      ensures added == Lands(old(State()), OfInvitation(InvitationTxn.AddInvitation(id, offer)))
    {
      if id in invitations || offer.organization !in organizations { return false; }
      invitations := invitations[id := offer];
      issued := issued + {id};
      return true;
    }

    method DestroyIfExpired(id: InvitationId, now: Moment)
      requires id in invitations
      modifies this`invitations
      ensures invitations == old(invitations)[id :=
                if old(invitations[id].IsExpiredAt(now)) then Spent(old(invitations[id])) else old(invitations[id])]
    {
      if invitations[id].expiresAt <= now {
        invitations := invitations[id := invitations[id].(verifier := None)];
      }
    }

    method ReadDestroyingExpired(id: InvitationId, now: Moment) returns (found: Option<Invitation>)
      modifies this
      ensures State() == Apply(old(State()), OfInvitation(InvitationTxn.ReadInvitation(id, now)))
      ensures found == if id in old(invitations) then Some(invitations[id]) else None
      ensures found.Some? && found.value.IsExpiredAt(now) ==> found.value.verifier.None?
    {
      if id !in invitations { return None; }
      DestroyIfExpired(id, now);
      assert invitations == Touched(old(invitations), {id}, now);
      found := Some(invitations[id]);
    }

    /** The earliest issued of some rows, the lower identifier first among equals. */
    method EarliestIssued(ids: set<InvitationId>) returns (first: InvitationId)
      requires ids != {} && ids <= invitations.Keys
      ensures first in ids
      ensures forall id :: id in ids && id != first ==> IssuedBefore(invitations, first, id)
    {
      first := Collections.Pick(ids);
      var pending := ids - {first};
      while pending != {}
        invariant pending <= ids && first in ids && first !in pending
        invariant forall id :: id in ids && id !in pending && id != first ==> IssuedBefore(invitations, first, id)
        decreases pending
      {
        var id := Collections.Pick(pending);
        pending := pending - {id};
        if IssuedBefore(invitations, id, first) { first := id; }
      }
    }

    /** Every row of the organization, once, in issuance order, each expired verifier destroyed first. */
    method InvitationsForOrganization(org: OrgId, now: Moment) returns (listed: seq<InvitationId>)
      modifies this`invitations
      ensures State() == Apply(old(State()), OfInvitation(InvitationTxn.ListInvitations(org, now)))
      ensures forall id :: id in listed <==> id in InvitationsOf(old(State()), org)
      ensures forall i, j :: 0 <= i < j < |listed| ==> IssuedBefore(invitations, listed[i], listed[j])
      ensures forall i, j :: 0 <= i < j < |listed| && listed[i] in invitations && listed[j] in invitations ==>
        || invitations[listed[i]].issuedAt < invitations[listed[j]].issuedAt
        || (invitations[listed[i]].issuedAt == invitations[listed[j]].issuedAt && listed[i] < listed[j])
      ensures forall id :: id in listed ==>
        id in invitations && (invitations[id].IsExpiredAt(now) ==> invitations[id].verifier.None?)
    {
      ghost var before := invitations;
      var rows := set id | id in invitations && invitations[id].organization == org;
      var pending := rows;
      listed := [];
      while pending != {}
        invariant pending <= rows <= before.Keys == invitations.Keys
        invariant forall id :: id in listed <==> id in rows - pending
        invariant forall id :: id in invitations ==> invitations[id] == Listed(before, rows - pending, id, now)
        invariant forall i, j :: 0 <= i < j < |listed| ==> IssuedBefore(before, listed[i], listed[j])
        invariant forall i, id :: 0 <= i < |listed| && id in pending ==> IssuedBefore(before, listed[i], id)
        decreases pending
      {
        var id := EarliestIssued(pending);
        assert forall other :: other in pending && other != id ==> IssuedBefore(before, id, other);
        DestroyIfExpired(id, now);
        listed := listed + [id];
        pending := pending - {id};
      }
      assert rows == InvitationsOf(old(State()), org) && rows - pending == rows;
      AllListed(before, invitations, rows, now);
    }

    method SaveInvitation(id: InvitationId, snapshot: Invitation) returns (saved: bool)
      modifies this
      ensures State() == Apply(old(State()), OfInvitation(InvitationTxn.SaveInvitation(id, snapshot)))
      ensures saved == Lands(old(State()), OfInvitation(InvitationTxn.SaveInvitation(id, snapshot)))
    {
      if id !in invitations { return false; }
      var row := invitations[id];
      if snapshot.redeemedAt.Some? && row.revokedAt.Some? { return false; }
      if snapshot.revokedAt.Some? && row.redeemedAt.Some? { return false; }
      if row.redeemedAt.None? { row := row.(redeemedAt := snapshot.redeemedAt); }
      if row.revokedAt.None? { row := row.(revokedAt := snapshot.revokedAt); }
      if snapshot.verifier.None? { row := row.(verifier := None); }
      invitations := invitations[id := row];
      return true;
    }

    method RedeemIntoMembership(
      id: InvitationId, account: AccountId, org: OrgId, role: Role, session: SessionId,
      event: MembershipEvent, now: Moment) returns (redeemed: bool)
      modifies this
      ensures State() == Apply(old(State()), OfMembership(MembershipTxn.Redeem(id, account, org, role, session, event, now)))
      ensures redeemed == Lands(old(State()), OfMembership(MembershipTxn.Redeem(id, account, org, role, session, event, now)))
    {
      if account !in accounts || accounts[account].disabledAt.Some? || accounts[account].email.None? { return false; }
      if session !in sessions || sessions[session].revokedAt.Some? || sessions[session].expiresAt <= now { return false; }
      if (org, account) in memberships { return false; }
      var consumed :=
        && id in invitations && invitations[id].organization == org
        && invitations[id].redeemedAt.None? && invitations[id].revokedAt.None?
        && invitations[id].expiresAt > now;
      if !consumed { return false; }
      invitations := invitations[id := invitations[id].(redeemedAt := Some(now), verifier := None)];
      memberships := memberships[(org, account) := role];
      Record(event, Some(id));
      return true;
    }

    method DeleteOpenInvitation(org: OrgId, id: InvitationId, now: Moment) returns (deleted: bool)
      modifies this
      ensures State() == Apply(old(State()), OfInvitation(InvitationTxn.DeleteOpenInvitation(org, id, now)))
      ensures deleted == Lands(old(State()), OfInvitation(InvitationTxn.DeleteOpenInvitation(org, id, now)))
    {
      deleted :=
        && id in invitations && invitations[id].organization == org
        && invitations[id].redeemedAt.None? && invitations[id].revokedAt.None?
        && invitations[id].expiresAt > now;
      if deleted { invitations := invitations - {id}; }
    }

    /** One retention pass: what is still open, or was redeemed within the horizon, stays; nothing else does. */
    method PurgeSpentInvitations(horizon: Moment, now: Moment) returns (purged: nat)
      modifies this
      ensures State() == Apply(old(State()), OfInvitation(InvitationTxn.PurgeInvitations(horizon, now)))
      ensures forall id :: id in invitations ==> id in old(invitations) && invitations[id] == old(invitations)[id]
      ensures forall id :: id in old(invitations) ==>
        (id in invitations <==>
          if old(invitations)[id].redeemedAt.Some? then old(invitations)[id].redeemedAt.value > horizon
          else old(invitations)[id].IsOpenAt(now))
      ensures purged == |old(invitations).Keys - invitations.Keys|
    {
      invitations, purged := SweepInvitations(invitations, horizon, now);
    }

    // ----- sessions ----------------------------------------------------------------------------

    /** A taken identifier is refused; a session naming no account is the store's own error. */
    method AddSession(id: SessionId, issue: Session) returns (added: Option<bool>)
      modifies this
      ensures State() == Apply(old(State()), OfSession(SessionTxn.AddSession(id, issue)))
      ensures added == Some(true) <==> Lands(old(State()), OfSession(SessionTxn.AddSession(id, issue)))
      ensures added == Some(false) <==> id in old(sessions)
      ensures added == None <==> id !in old(sessions) && issue.account !in old(accounts)
    {
      if id in sessions { return Some(false); }
      if issue.account !in accounts { return None; }
      sessions := sessions[id := issue];
      minted := minted + {id};
      return Some(true);
    }

    method PointSessionAtOrganization(id: SessionId, target: Option<OrgId>) returns (pointed: bool)
      modifies this
      ensures State() == Apply(old(State()), OfSession(SessionTxn.PointSession(id, target)))
      ensures pointed == Lands(old(State()), OfSession(SessionTxn.PointSession(id, target)))
      ensures pointed <==>
        id in old(sessions) && old(sessions)[id].revokedAt.None? && (target.Some? ==> target.value in old(organizations))
      ensures sessions.Keys == old(sessions).Keys && forall other :: other in sessions ==>
        sessions[other] == if pointed && other == id then old(sessions)[id].(activeOrganization := target)
                           else old(sessions)[other]
    {
      pointed :=
        id in sessions && sessions[id].revokedAt.None? && (target.Some? ==> target.value in organizations);
      if pointed { sessions := sessions[id := sessions[id].(activeOrganization := target)]; }
    }

    method RevokeSession(id: SessionId, now: Moment) returns (revoked: bool)
      modifies this
      ensures State() == Apply(old(State()), OfSession(SessionTxn.RevokeSession(id, now)))
      ensures revoked == Lands(old(State()), OfSession(SessionTxn.RevokeSession(id, now)))
    {
      revoked := id in sessions && sessions[id].revokedAt.None?;
      if revoked { sessions := sessions[id := sessions[id].(revokedAt := Some(now))]; }
    }

    /** Afterwards the account has no live session; every other row, and every past revocation, is as it was. */
    method RevokeAllForAccount(account: AccountId, now: Moment) returns (revoked: nat)
      modifies this
      ensures State() == Apply(old(State()), OfSession(SessionTxn.RevokeAllForAccount(account, now)))
      ensures forall id, moment :: id in sessions && sessions[id].account == account ==> !sessions[id].IsLiveAt(moment)
      ensures forall id :: id in sessions <==> id in old(sessions)
      ensures forall id :: id in sessions && (sessions[id].account != account || old(sessions)[id].revokedAt.Some?) ==>
        sessions[id] == old(sessions)[id]
      ensures forall id :: id in sessions ==>
        sessions[id] == old(sessions)[id] || sessions[id] == old(sessions)[id].(revokedAt := Some(now))
      ensures revoked == |set id | id in sessions && sessions[id] != old(sessions)[id]|
    {
      revoked := EndSessions({account}, now);
    }

    /** Likewise for every account linked to the provider, and for no other account. */
    method RevokeAllForProvider(provider: int, now: Moment) returns (revoked: nat)
      modifies this
      ensures State() == Apply(old(State()), OfSession(SessionTxn.RevokeAllForProvider(provider, now)))
      ensures forall id, moment, subject ::
        id in sessions && subject in links && subject.provider == provider && links[subject] == sessions[id].account ==>
          !sessions[id].IsLiveAt(moment)
      ensures forall id :: id in sessions <==> id in old(sessions)
      ensures forall id :: id in sessions && sessions[id] != old(sessions)[id] ==>
        && old(sessions)[id].revokedAt.None? && sessions[id] == old(sessions)[id].(revokedAt := Some(now))
        && exists subject :: subject in links && subject.provider == provider && links[subject] == sessions[id].account
      ensures revoked == |set id | id in sessions && sessions[id] != old(sessions)[id]|
    {
      var linked := set subject | subject in links && subject.provider == provider :: links[subject];
      assert linked == LinkedTo(State(), provider);
      revoked := EndSessions(linked, now);
    }

    /** The one statement both of these run. */
    method EndSessions(accounts: set<AccountId>, now: Moment) returns (revoked: nat)
      modifies this`sessions
      ensures sessions == SessionsEnded(old(sessions), accounts, now)
      ensures forall id :: id in sessions <==> id in old(sessions)
      ensures forall id :: id in sessions && sessions[id].account in accounts ==> sessions[id].revokedAt.Some?
      ensures forall id :: id in sessions && sessions[id] != old(sessions)[id] ==>
        && sessions[id].account in accounts && old(sessions)[id].revokedAt.None?
        && sessions[id] == old(sessions)[id].(revokedAt := Some(now))
      ensures revoked == |set id | id in sessions && sessions[id] != old(sessions)[id]|
    {
      var live := set id | id in sessions && sessions[id].account in accounts && sessions[id].revokedAt.None?;
      sessions := SessionsEnded(sessions, accounts, now);
      revoked := |live|;
      assert live == set id | id in sessions && sessions[id] != old(sessions)[id];
    }

    /** Rows dead by the horizon go, counted from their own death; deleting one never ends any authority. */
    method PurgeSessionsDeadBefore(horizon: Moment) returns (purged: nat)
      modifies this
      ensures State() == Apply(old(State()), OfSession(SessionTxn.PurgeSessions(horizon)))
      ensures forall id :: id in sessions ==> id in old(sessions) && sessions[id] == old(sessions)[id]
      ensures forall id :: id in old(sessions) ==> (id in sessions <==> DiedAt(old(sessions)[id]) > horizon)
      ensures forall id, moment :: id in old(sessions) && horizon <= moment && old(sessions)[id].IsLiveAt(moment) ==>
        id in sessions
      ensures purged == |old(sessions).Keys - sessions.Keys|
    {
      sessions, purged := SweepSessions(sessions, horizon);
    }
  }
}
