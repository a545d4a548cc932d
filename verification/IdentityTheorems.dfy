/** What every run of the identity services keeps. */
module IdentityTheorems {
  import opened Records
  import opened IdentityState
  import opened IdentityHistory

  // ----- an organization keeps an owner who can act --------------------------------------------

  lemma OwnerSurvives(s: Store, s': Store, org: OrgId, owner: AccountId)
    requires EffectiveOwner(s, org, owner) && Owns(s', org, owner)
    requires owner in s'.accounts && s'.accounts[owner] == s.accounts[owner]
    requires HasLink(s, owner) ==> HasLink(s', owner)
    ensures HasEffectiveOwner(s', org)
  {
    assert EffectiveOwner(s', org, owner);
  }

  lemma DisableKeepsOwners(s: Store, t: AccountTxn, org: OrgId)
    requires t.ReduceOwner? && AccountLands(s, t) && HasEffectiveOwner(s, org)
    ensures HasEffectiveOwner(AccountTxnWritten(s, t), org)
  {
    var s' := AccountTxnWritten(s, t);
    assert s'.links == s.links;
    var owner :| EffectiveOwner(s, org, owner);
    if owner == t.account {
      owner :| owner in OtherEffectiveOwners(s, org, t.account);
    }
    assert Owns(s', org, owner);
    OwnerSurvives(s, s', org, owner);
  }

  lemma MembershipChangeKeepsOwners(s: Store, t: MembershipTxn, org: OrgId)
    requires t.Demote? || t.Revoke?
    requires MembershipLands(s, t) && HasEffectiveOwner(s, org)
    ensures HasEffectiveOwner(MembershipTxnWritten(s, t), org)
  {
    var s' := MembershipTxnWritten(s, t);
    assert s'.links == s.links;
    var owner :| EffectiveOwner(s, org, owner);
    if owner == t.account && t.org == org {
      owner :| owner in OtherEffectiveOwners(s, org, t.account);
    }
    assert Owns(s', org, owner);
    OwnerSurvives(s, s', org, owner);
  }

  lemma UnlinkKeepsOwners(s: Store, subject: Subject, org: OrgId)
    requires RowsSound(s) && AccountLands(s, UnlinkIdentity(subject)) && HasEffectiveOwner(s, org)
    ensures HasEffectiveOwner(UnlinkWritten(s, subject), org)
  {
    var s' := UnlinkWritten(s, subject);
    var account := s.links[subject];
    var owner :| EffectiveOwner(s, org, owner);
    if owner == account && KeepsLogin(s, account, subject) {
      if s.accounts[account].verifier.None? {
        var other :| other in s.links && other != subject && s.links[other] == account;
        assert other in s'.links && s'.links[other] == account;
        assert HasLink(s', account);
      }
      assert EffectiveOwner(s', org, owner);
    } else {
      if owner == account {
        assert !Strands(s, account);
        owner :| owner in OtherEffectiveOwners(s, org, account);
      }
      LinkStays(s, s', subject, owner);
      OwnerSurvives(s, s', org, owner);
    }
  }

  lemma LinkStays(s: Store, s': Store, subject: Subject, owner: AccountId)
    requires subject in s.links && s.links[subject] != owner && s'.links == s.links - {subject}
    ensures HasLink(s, owner) ==> HasLink(s', owner)
  {
    if HasLink(s, owner) {
      var link :| link in s.links && s.links[link] == owner;
      assert link in s'.links && s'.links[link] == owner;
    }
  }

  predicate OwnerReducing(t: Txn) {
    || (t.OfAccount? && (t.a.ReduceOwner? || t.a.UnlinkIdentity?))
    || (t.OfMembership? && (t.m.Demote? || t.m.Revoke?))
  }

  lemma LinksOnlyGrow(s: Store, s': Store, owner: AccountId)
    requires forall subject :: subject in s.links ==> subject in s'.links && s'.links[subject] == s.links[subject]
    ensures HasLink(s, owner) ==> HasLink(s', owner)
  {
    if HasLink(s, owner) {
      var link :| link in s.links && s.links[link] == owner;
      assert link in s'.links && s'.links[link] == owner;
    }
  }

  /** Everything that is not owner-reducing leaves every effective owner effective. */
  lemma OtherStepsKeepEachOwner(s: Store, t: Txn, org: OrgId, owner: AccountId)
    requires Sound(s) && Meant(s, t) && !OwnerReducing(t) && EffectiveOwner(s, org, owner)
    ensures EffectiveOwner(Apply(s, t), org, owner)
  {
    if Lands(s, t) && t.OfAccount? {
      AccountStepKeepsEachOwner(s, t.a, org, owner);
    } else if Lands(s, t) && t.OfMembership? {
      var s' := MembershipTxnWritten(s, t.m);
      assert s'.accounts == s.accounts && s'.links == s.links;
      assert Owns(s', org, owner);
      LinksOnlyGrow(s, s', owner);
    }
  }

  lemma AccountStepKeepsEachOwner(s: Store, t: AccountTxn, org: OrgId, owner: AccountId)
    requires AccountsSound(s.accounts) && WritesLater(s, t) && !OwnerReducing(OfAccount(t)) && AccountLands(s, t)
    requires EffectiveOwner(s, org, owner)
    ensures EffectiveOwner(AccountTxnWritten(s, t), org, owner)
  {
    LinksOnlyGrow(s, AccountTxnWritten(s, t), owner);
    match t
    case SaveAccount(id, record) => if id == owner { assert HasLink(s, owner); }
    case PurgeAccount(id, _) => assert id != owner;
    case AddAccount(id, _, _) => assert id != owner;
    case LinkIdentity(_, _) =>
  }

  lemma StepKeepsOwners(s: Store, t: Txn, org: OrgId)
    requires Sound(s) && Meant(s, t) && HasEffectiveOwner(s, org)
    ensures HasEffectiveOwner(Apply(s, t), org)
  {
    if Lands(s, t) {
      if !OwnerReducing(t) {
        var owner :| EffectiveOwner(s, org, owner);
        OtherStepsKeepEachOwner(s, t, org, owner);
      } else if t.OfMembership? {
        MembershipChangeKeepsOwners(s, t.m, org);
      } else if t.a.ReduceOwner? {
        DisableKeepsOwners(s, t.a, org);
      } else {
        UnlinkKeepsOwners(s, t.a.subject, org);
      }
    }
  }

  lemma StepMeant(h: seq<Store>, ts: seq<Txn>, i: nat)
    requires Run(h, ts) && i < |ts|
    ensures Sound(h[i]) && Meant(h[i], ts[i]) && h[i + 1] == Apply(h[i], ts[i])
  {
    RunOrdered(h, ts, i, i);
    assert StepAt(h, ts, i);
    PermittedIsMeant(h[..i + 1], ts[i]);
  }

  /** FR-013 over whole runs: an organization that has an owner able to act never loses its last one. */
  lemma {:induction false} OwnersNeverRunOut(h: seq<Store>, ts: seq<Txn>, org: OrgId, i: nat, j: nat)
    requires Run(h, ts) && i <= j < |h| && HasEffectiveOwner(h[i], org)
    ensures HasEffectiveOwner(h[j], org)
    decreases j - i
  {
    if i == j {
    } else {
      OwnersNeverRunOut(h, ts, org, i, j - 1);
      OwnersKeptAt(h, ts, org, j - 1);
    }
  }

  lemma OwnersKeptAt(h: seq<Store>, ts: seq<Txn>, org: OrgId, i: nat)
    requires Run(h, ts) && i < |ts| && HasEffectiveOwner(h[i], org)
    ensures HasEffectiveOwner(h[i + 1], org)
  {
    StepMeant(h, ts, i);
    StepKeepsOwners(h[i], ts[i], org);
  }

  /** The guard is tight: a disablement is refused exactly when it would empty an organization it owns. */
  lemma DisableGuardIsExact(s: Store, account: AccountId, now: Moment)
    requires account in s.accounts && !s.accounts[account].IsPurged()
    ensures ReductionOutcome(s, account) == FinalOwner <==>
            exists org :: Owns(s, org, account)
              && !HasEffectiveOwner(AccountWritten(s, account, s.accounts[account].Disabled(now)), org)
  {
    var s' := AccountWritten(s, account, s.accounts[account].Disabled(now));
    assert s'.links == s.links;
    forall org | Owns(s, org, account)
      ensures HasEffectiveOwner(s', org) <==> OtherEffectiveOwners(s, org, account) != {}
    {
      if HasEffectiveOwner(s', org) {
        var owner :| EffectiveOwner(s', org, owner);
        assert owner != account && HasLink(s', owner) == HasLink(s, owner);
        assert owner in OtherEffectiveOwners(s, org, account);
      }
      if OtherEffectiveOwners(s, org, account) != {} {
        var other :| other in OtherEffectiveOwners(s, org, account);
        assert Owns(s', org, other);
        OwnerSurvives(s, s', org, other);
      }
    }
  }

  /** Likewise for removal and downgrade of one membership. */
  lemma MembershipGuardIsExact(s: Store, org: OrgId, account: AccountId, event: MembershipEvent, now: Moment)
    requires (org, account) in s.memberships
    ensures MembershipOutcome(s, org, account) == FinalOwner <==>
            Owns(s, org, account) && !HasEffectiveOwner(DemoteWritten(s, org, account, event), org)
    ensures MembershipOutcome(s, org, account) == FinalOwner <==>
            Owns(s, org, account) && !HasEffectiveOwner(RevokeWritten(s, org, account, event, now), org)
  {
    var d, r := DemoteWritten(s, org, account, event), RevokeWritten(s, org, account, event, now);
    if Owns(s, org, account) && OtherEffectiveOwners(s, org, account) != {} {
      var other :| other in OtherEffectiveOwners(s, org, account);
      assert EffectiveOwner(d, org, other) && EffectiveOwner(r, org, other);
    }
    if HasEffectiveOwner(d, org) {
      var owner :| EffectiveOwner(d, org, owner);
      assert Owns(s, org, account) ==> owner in OtherEffectiveOwners(s, org, account);
    }
    if HasEffectiveOwner(r, org) {
      var owner :| EffectiveOwner(r, org, owner);
      assert Owns(s, org, account) ==> owner in OtherEffectiveOwners(s, org, account);
    }
  }

  // ----- the event log and the roles -----------------------------------------------------------

  /** Folding the whole event history gives exactly the current roles, and every prior role is true. */
  lemma LogRefinesRoles(h: seq<Store>, ts: seq<Txn>, i: nat)
    requires Run(h, ts) && i < |h|
    ensures forall org, account :: RoleAfter(h[i].log, org, account) == RoleNow(h[i], org, account)
    ensures forall n :: 0 <= n < |h[i].log| ==>
              h[i].log[n].event.priorRole
              == RoleAfter(h[i].log[..n], h[i].log[n].event.organization, h[i].log[n].event.account)
  {
    RunOrdered(h, ts, i, i);
  }

  // ----- invitations ---------------------------------------------------------------------------

  /** One invitation, two moments of one run: what can and what cannot have changed. */
  lemma InvitationPermanence(h: seq<Store>, ts: seq<Txn>, i: nat, j: nat, id: InvitationId)
    requires Run(h, ts) && i <= j < |h|
    ensures id in h[i].invitations && id in h[j].invitations ==>
              var x, y := h[i].invitations[id], h[j].invitations[id];
              && y.organization == x.organization && y.intendedRole == x.intendedRole && y.target == x.target
              && y.expiresAt == x.expiresAt && y.issuedBy == x.issuedBy && y.issuedAt == x.issuedAt
              && (x.redeemedAt.Some? ==> y.redeemedAt == x.redeemedAt)
              && (x.revokedAt.Some? ==> y.revokedAt == x.revokedAt)
              && (x.verifier.None? ==> y.verifier.None?)
              && !(y.redeemedAt.Some? && y.revokedAt.Some?)
              && (y.redeemedAt.Some? || y.revokedAt.Some? ==> y.verifier.None?)
    ensures id in h[i].issued && id !in h[i].invitations ==> id !in h[j].invitations
  {
    RunOrdered(h, ts, i, j);
    if id in h[i].invitations && id in h[j].invitations {
      assert LaterInvitation(h[i].invitations[id], h[j].invitations[id]);
    }
  }

  lemma OneMembershipPerInvitation(h: seq<Store>, ts: seq<Txn>, i: nat, m: nat, n: nat)
    requires Run(h, ts) && i < |h| && m < |h[i].log| && n < |h[i].log|
    requires h[i].log[m].via.Some? && h[i].log[m].via == h[i].log[n].via
    ensures m == n
  {
    RunOrdered(h, ts, i, i);
  }

  /** The step that made a log entry out of an invitation. */
  ghost predicate RedeemedBy(h: seq<Store>, ts: seq<Txn>, k: nat, entry: LogEntry)
    requires |h| == |ts| + 1
  {
    && k < |ts| && ts[k].OfMembership? && ts[k].m.Redeem?
    && RedemptionOf(h[k], ts[k].m, entry)
    && h[k + 1].memberships == h[k].memberships[(ts[k].m.org, ts[k].m.account) := ts[k].m.role]
  }

  /** The offer as issued, open at the redemption instant, taken up by its addressee, who can act. */
  ghost predicate RedemptionOf(s: Store, t: MembershipTxn, entry: LogEntry)
    requires t.Redeem?
  {
    && entry.via == Some(t.id) && entry.event == t.event && t.event.occurredAt == t.now
    && t.id in s.invitations && s.invitations[t.id].IsOpenAt(t.now)
    && s.invitations[t.id].organization == t.org && s.invitations[t.id].intendedRole == t.role
    && t.account in s.accounts && s.accounts[t.account].CanAct()
    && s.accounts[t.account].email == Some(s.invitations[t.id].target)
  }

  lemma LandedRedemption(h: seq<Store>, t: MembershipTxn)
    requires Settled(h) && t.Redeem? && RedeemPermitted(h, t) && MembershipLands(Now(h), t)
    ensures RedemptionOf(Now(h), t, LogEntry(t.event, Some(t.id)))
  {
    var offer: Invitation, actor: Account :|
      && SeenInvitation(h, t.id, offer) && offer.verifier.Some? && offer.IsOpenAt(t.now)
      && offer.organization == t.org && offer.intendedRole == t.role
      && SeenAccount(h, t.account, actor) && actor.email == Some(offer.target);
    SnapshotAgrees(h, t.account, actor);
    var k :| 0 <= k < |h| && t.id in h[k].invitations && h[k].invitations[t.id] == offer;
    assert Evolves(h[k], Now(h)) && Sound(h[k]);
    assert LaterInvitation(offer, Now(h).invitations[t.id]);
  }

  /** Every membership made by an invitation was made while it was neither revoked nor expired. */
  lemma MembershipsComeFromOpenInvitations(h: seq<Store>, ts: seq<Txn>, i: nat, n: nat)
    requires Run(h, ts) && i < |h| && n < |h[i].log| && h[i].log[n].via.Some?
    ensures exists k :: 0 <= k < i && RedeemedBy(h, ts, k, h[i].log[n])
  {
    var k := FindRedemption(h, ts, i, n);
  }

  lemma {:induction false} FindRedemption(h: seq<Store>, ts: seq<Txn>, i: nat, n: nat) returns (k: nat)
    requires Run(h, ts) && i < |h| && n < |h[i].log| && h[i].log[n].via.Some?
    ensures k < i && RedeemedBy(h, ts, k, h[i].log[n])
    decreases i
  {
    assert i > 0;
    LogOnlyGrows(h, ts, i - 1, i);
    if n < |h[i - 1].log| {
      assert h[i - 1].log[n] == h[i].log[n];
      k := FindRedemption(h, ts, i - 1, n);
    } else {
      GrantIsRedemption(h, ts, i - 1, n);
      k := i - 1;
    }
  }

  lemma LogOnlyGrows(h: seq<Store>, ts: seq<Txn>, i: nat, j: nat)
    requires Run(h, ts) && i <= j < |h|
    ensures h[i].log <= h[j].log
  {
    RunOrdered(h, ts, i, j);
  }

  lemma GrantIsRedemption(h: seq<Store>, ts: seq<Txn>, k: nat, n: nat)
    requires Run(h, ts) && k < |ts| && |h[k].log| <= n < |h[k + 1].log| && h[k + 1].log[n].via.Some?
    ensures RedeemedBy(h, ts, k, h[k + 1].log[n])
  {
    assert StepAt(h, ts, k);
    OnlyRedemptionsGrant(h[k], ts[k], n);
    RedeemerIsAddressee(h, ts, k, ts[k].m.org, ts[k].m.account, ts[k].m.id);
  }

  lemma OnlyRedemptionsGrant(s: Store, t: Txn, n: nat)
    requires |s.log| <= n < |Apply(s, t).log| && Apply(s, t).log[n].via.Some?
    ensures t.OfMembership? && t.m.Redeem? && MembershipLands(s, t.m)
    ensures Apply(s, t).log[n] == LogEntry(t.m.event, Some(t.m.id))
    ensures Apply(s, t).memberships == s.memberships[(t.m.org, t.m.account) := t.m.role]
  {
    OnlyMembershipsLog(s, t);
    MembershipGrant(s, t.m, n);
  }

  lemma OnlyMembershipsLog(s: Store, t: Txn)
    ensures Apply(s, t).log != s.log ==>
              t.OfMembership? && MembershipLands(s, t.m) && Apply(s, t) == MembershipTxnWritten(s, t.m)
  {
  }

  lemma MembershipGrant(s: Store, t: MembershipTxn, n: nat)
    requires MembershipLands(s, t)
    requires |s.log| <= n < |MembershipTxnWritten(s, t).log| && MembershipTxnWritten(s, t).log[n].via.Some?
    ensures t.Redeem? && MembershipTxnWritten(s, t).log[n] == LogEntry(t.event, Some(t.id))
    ensures MembershipTxnWritten(s, t).memberships == s.memberships[(t.org, t.account) := t.role]
  {
  }

  // ----- no way back in ------------------------------------------------------------------------

  function ClockOf(t: Txn): Option<Moment> {
    if t.OfMembership? && (t.m.Revoke? || t.m.Redeem?) then Some(t.m.now) else None
  }

  /** Revocations and redemptions see the clock in the order they commit. */
  ghost predicate MonotoneClock(ts: seq<Txn>) {
    forall i, j :: 0 <= i < j < |ts| && ClockOf(ts[i]).Some? && ClockOf(ts[j]).Some? ==>
      ClockOf(ts[i]).value <= ClockOf(ts[j]).value
  }

  /** What a landed revocation leaves open in that organization is neither to nor from the revoked account. */
  lemma RevokeClosesOffers(s: Store, t: MembershipTxn, id: InvitationId)
    requires t.Revoke? && MembershipLands(s, t) && id in MembershipTxnWritten(s, t).invitations
    requires MembershipTxnWritten(s, t).invitations[id].organization == t.org
    requires MembershipTxnWritten(s, t).invitations[id].IsOpenAt(t.now)
    ensures MembershipTxnWritten(s, t).invitations[id].issuedBy != t.account
    ensures EmailOf(s, t.account) != Some(MembershipTxnWritten(s, t).invitations[id].target)
  {
    assert id in s.invitations
      && !Cascaded(s.invitations[id], Some(t.org), EmailOf(s, t.account), Some(t.account), Some(t.now));
  }

  /** An offer open later was open before. */
  lemma OpenLaterWasOpenBefore(s: Store, s': Store, id: InvitationId, before: Moment, now: Moment)
    requires Evolves(s, s') && OffersSound(s.invitations, s.issued)
    requires id in s.invitations && id in s'.invitations && s'.invitations[id].IsOpenAt(now) && before <= now
    ensures s.invitations[id].IsOpenAt(before) && s.invitations[id].SameOffer(s'.invitations[id])
  {
    assert LaterInvitation(s.invitations[id], s'.invitations[id]);
  }

  ghost predicate RevokedAt(h: seq<Store>, ts: seq<Txn>, i: nat, org: OrgId, account: AccountId)
    requires |h| == |ts| + 1
  {
    && i < |ts| && ts[i].OfMembership? && ts[i].m.Revoke? && Lands(h[i], ts[i])
    && ts[i].m.org == org && ts[i].m.account == account
  }

  ghost predicate RedeemedAt(h: seq<Store>, ts: seq<Txn>, j: nat, org: OrgId, account: AccountId, id: InvitationId)
    requires |h| == |ts| + 1
  {
    && j < |ts| && ts[j].OfMembership? && ts[j].m.Redeem? && Lands(h[j], ts[j])
    && ts[j].m.org == org && ts[j].m.account == account && ts[j].m.id == id
  }

  lemma RedeemerIsAddressee(h: seq<Store>, ts: seq<Txn>, j: nat, org: OrgId, account: AccountId, id: InvitationId)
    requires Run(h, ts) && RedeemedAt(h, ts, j, org, account, id)
    ensures RedemptionOf(h[j], ts[j].m, LogEntry(ts[j].m.event, Some(id)))
  {
    RunOrdered(h, ts, j, j);
    assert StepAt(h, ts, j);
    LandedRedemption(h[..j + 1], ts[j].m);
  }

  /**
   * Once `account` is revoked from `org`, no invitation then in the store brings it back, and none
   * it issued there brings in anyone.
   */
  lemma NoReEntry(
    h: seq<Store>, ts: seq<Txn>, i: nat, j: nat, org: OrgId, account: AccountId, joiner: AccountId, id: InvitationId)
    requires Run(h, ts) && MonotoneClock(ts) && i < j
    requires RevokedAt(h, ts, i, org, account) && RedeemedAt(h, ts, j, org, joiner, id)
    requires id in h[i + 1].invitations
    ensures joiner != account
    ensures h[i + 1].invitations[id].issuedBy != account
  {
    assert ClockOf(ts[i]).value <= ClockOf(ts[j]).value;
    RunOrdered(h, ts, i + 1, j);
    RedeemerIsAddressee(h, ts, j, org, joiner, id);
    OpenLaterWasOpenBefore(h[i + 1], h[j], id, ts[i].m.now, ts[j].m.now);
    StepMeant(h, ts, i);
    RevokeClosesOffers(h[i], ts[i].m, id);
    if joiner == account {
      assert (org, account) in h[i].memberships;
      AccountPermanence(h, ts, i, j, account);
    }
  }

  // ----- permanence ----------------------------------------------------------------------------

  /** A revocation instant is never moved or cleared, and a revoked session is never re-pointed. */
  lemma SessionPermanence(h: seq<Store>, ts: seq<Txn>, i: nat, j: nat, id: SessionId)
    requires Run(h, ts) && i <= j < |h| && id in h[i].sessions && h[i].sessions[id].revokedAt.Some?
    ensures id in h[j].sessions ==> h[j].sessions[id] == h[i].sessions[id]
  {
    RunOrdered(h, ts, i, j);
    if id in h[j].sessions { assert LaterSession(h[i].sessions[id], h[j].sessions[id]); }
  }

  /** A purged account never regains an address or verifier; no account regains a destroyed verifier. */
  lemma AccountPermanence(h: seq<Store>, ts: seq<Txn>, i: nat, j: nat, id: AccountId)
    requires Run(h, ts) && i <= j < |h| && id in h[i].accounts
    ensures id in h[j].accounts
    ensures h[i].accounts[id].IsPurged() ==> h[j].accounts[id] == h[i].accounts[id]
    ensures h[i].accounts[id].verifier.None? ==> h[j].accounts[id].verifier.None?
    ensures h[j].accounts[id].email.Some? ==> h[j].accounts[id].email == h[i].accounts[id].email
  {
    RunOrdered(h, ts, i, j);
    assert LaterAccount(h[i].accounts[id], h[j].accounts[id]);
  }

  /** An organization resolves to one isolation key for its lifetime, and to nobody else's. */
  lemma ScopesAreStableAndSeparate(h: seq<Store>, ts: seq<Txn>, i: nat, j: nat, a: OrgId, b: OrgId)
    requires Run(h, ts) && i <= j < |h| && a in h[i].organizations && b in h[j].organizations
    ensures a in h[i].scopes && a in h[j].scopes && h[j].scopes[a] == h[i].scopes[a]
    ensures b in h[j].scopes && (a != b ==> h[j].scopes[b] != h[i].scopes[a])
  {
    RunOrdered(h, ts, i, j);
  }

  /** One mailbox, one account. */
  lemma AddressesStayUnique(h: seq<Store>, ts: seq<Txn>, i: nat, a: AccountId, b: AccountId)
    requires Run(h, ts) && i < |h| && a in h[i].accounts && b in h[i].accounts
    requires h[i].accounts[a].email.Some? && h[i].accounts[a].email == h[i].accounts[b].email
    ensures a == b
  {
    RunOrdered(h, ts, i, i);
  }

  // ----- staying due for purge -----------------------------------------------------------------

  /** A write that lands and is the account's re-enablement, re-dating past the horizon, or purge. */
  ghost predicate EndsEligibility(s: Store, t: Txn, id: AccountId, horizon: Moment) {
    && Lands(s, t) && t.OfAccount?
    && match t.a
       case SaveAccount(account, _) => account == id
       case ReduceOwner(account, record) =>
         account == id && (record.disabledAt.Some? ==> record.disabledAt.value > horizon)
       case PurgeAccount(account, _) => account == id
       case _ => false
  }

  lemma AccountWriteEndsExactlyWhen(s: Store, t: AccountTxn, id: AccountId, horizon: Moment)
    requires AccountsSound(s.accounts) && WritesLater(s, t) && AccountLands(s, t)
    requires id in s.accounts && s.accounts[id].IsPurgeableAt(horizon)
    ensures id in AccountTxnWritten(s, t).accounts
    ensures AccountTxnWritten(s, t).accounts[id].IsPurgeableAt(horizon) <==>
            !EndsEligibility(s, OfAccount(t), id, horizon)
  {
  }

  lemma OtherWritesLeaveAccounts(s: Store, t: Txn)
    requires !t.OfAccount? || !Lands(s, t)
    ensures Apply(s, t).accounts == s.accounts
  {
    if Lands(s, t) && t.OfMembership? {
      MembershipsLeaveAccounts(s, t.m);
    }
  }

  lemma MembershipsLeaveAccounts(s: Store, t: MembershipTxn)
    requires MembershipLands(s, t)
    ensures MembershipTxnWritten(s, t).accounts == s.accounts
  {
  }

  /** One transaction: refused writes, other accounts' and harmless re-dating leave an account due. */
  lemma EligibilityEndsExactlyWhen(s: Store, t: Txn, id: AccountId, horizon: Moment)
    requires Sound(s) && Meant(s, t) && id in s.accounts && s.accounts[id].IsPurgeableAt(horizon)
    ensures id in Apply(s, t).accounts
    ensures Apply(s, t).accounts[id].IsPurgeableAt(horizon) <==> !EndsEligibility(s, t, id, horizon)
  {
    if t.OfAccount? && Lands(s, t) {
      AccountWriteEndsExactlyWhen(s, t.a, id, horizon);
    } else {
      OtherWritesLeaveAccounts(s, t);
    }
  }

  ghost predicate DueAt(h: seq<Store>, k: nat, id: AccountId, horizon: Moment) requires k < |h| {
    id in h[k].accounts && h[k].accounts[id].IsPurgeableAt(horizon)
  }

  ghost predicate EndsAt(h: seq<Store>, ts: seq<Txn>, k: nat, id: AccountId, horizon: Moment)
    requires k < |h| && k < |ts|
  {
    EndsEligibility(h[k], ts[k], id, horizon)
  }

  lemma RunEndsExactlyWhen(h: seq<Store>, ts: seq<Txn>, k: nat, id: AccountId, horizon: Moment)
    requires Run(h, ts) && k < |ts| && DueAt(h, k, id, horizon)
    ensures DueAt(h, k + 1, id, horizon) <==> !EndsAt(h, ts, k, id, horizon)
  {
    StepMeant(h, ts, k);
    EligibilityEndsExactlyWhen(h[k], ts[k], id, horizon);
  }

  /**
   * Over any run, an account due for purge stays due exactly as long as none of its writes re-enables it,
   * re-dates its disablement past the horizon, or purges it.
   */
  lemma {:induction false} EligibilityPersistsExactlyWhen(
    h: seq<Store>, ts: seq<Txn>, i: nat, j: nat, id: AccountId, horizon: Moment)
    requires Run(h, ts) && i <= j < |h| && DueAt(h, i, id, horizon)
    ensures (forall k: nat :: i <= k <= j ==> DueAt(h, k, id, horizon))
      <==> forall k: nat :: i <= k < j ==> !EndsAt(h, ts, k, id, horizon)
    decreases j - i
  {
    if i == j {
    } else {
      EligibilityPersistsExactlyWhen(h, ts, i, j - 1, id, horizon);
      if DueAt(h, j - 1, id, horizon) {
        RunEndsExactlyWhen(h, ts, j - 1, id, horizon);
      }
    }
  }

  /** Two disablements from one held record: the second re-dates the first, and the account is not due. */
  lemma StaleDisableMovesTheHorizon()
    ensures exists h: seq<Store>, ts: seq<Txn> ::
              && Run(h, ts) && |ts| == 3
              && (forall k :: k in {1, 2} ==> ts[k].OfAccount? && ts[k].a.ReduceOwner? && ts[k].a.account == 1)
              && DueAt(h, 2, 1, 10) && EndsAt(h, ts, 2, 1, 10) && !DueAt(h, 3, 1, 10)
  {
    var record := Account(Some(7), Some(8), None);
    var add := OfAccount(AddAccount(1, record, None));
    var first := OfAccount(ReduceOwner(1, record.Disabled(10)));
    var second := OfAccount(ReduceOwner(1, record.Disabled(11)));
    var h1 := Apply(EMPTY, add);
    var h2 := Apply(h1, first);
    var h3 := Apply(h2, second);
    var h, ts := [EMPTY, h1, h2, h3], [add, first, second];
    assert h1.accounts[1] == record;
    assert h1.memberships == map[] && h2.memberships == map[];
    assert SeenAccount(h[..2], 1, record) by { assert h[..2][1] == h1; }
    assert SeenAccount(h[..3], 1, record) by { assert h[..3][1] == h1; }
    assert StepAt(h, ts, 0) && StepAt(h, ts, 1) && StepAt(h, ts, 2);
    assert Run(h, ts);
    assert EndsAt(h, ts, 2, 1, 10);
    RunEndsExactlyWhen(h, ts, 2, 1, 10);
  }

  // ----- what a cascade takes and what it leaves -----------------------------------------------

  /**
   * A removal that lands takes exactly the offers of that organization that are still open at that instant and
   * are addressed to the account's address or issued by it. Every other offer stays as it was.
   */
  lemma RevokeTakesExactly(s: Store, org: OrgId, account: AccountId, actor: AccountId, event: EventId, now: Moment)
    requires Lands(s, OfMembership(Revoke(org, account, actor, event, now)))
    ensures var after := Apply(s, OfMembership(Revoke(org, account, actor, event, now))).invitations;
            && (forall id :: id in after ==> id in s.invitations && after[id] == s.invitations[id])
            && forall id :: id in s.invitations ==>
                 var offer := s.invitations[id];
                 (id !in after <==>
                   && offer.redeemedAt.None? && offer.revokedAt.None?
                   && offer.organization == org && offer.expiresAt > now
                   && (|| offer.issuedBy == account
                       || (account in s.accounts && s.accounts[account].email == Some(offer.target))))
  {
  }

  /**
   * A purge takes exactly the offers addressed to the purged account's address that were neither redeemed nor
   * revoked, in every organization, expired or not. Every other offer stays as it was.
   */
  lemma PurgeTakesExactly(s: Store, account: AccountId, horizon: Moment)
    requires Lands(s, OfAccount(PurgeAccount(account, horizon)))
    ensures account in s.accounts && s.accounts[account].email.Some?
    ensures var after := Apply(s, OfAccount(PurgeAccount(account, horizon))).invitations;
            && (forall id :: id in after ==> id in s.invitations && after[id] == s.invitations[id])
            && forall id :: id in s.invitations ==>
                 var offer := s.invitations[id];
                 (id !in after <==>
                   && offer.redeemedAt.None? && offer.revokedAt.None?
                   && offer.target == s.accounts[account].email.value)
  {
  }
}
