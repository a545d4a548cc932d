/**
 * The owner-reducing transactions taken apart: plan the owner rows to lock, take them one at a time,
 * count, and commit, with every other transaction free to run in between. A row lock blocks only a
 * transaction that wants the same row.
 */
module OwnerLocks {
  import opened Records
  import opened IdentityState
  import IdentityHistory
  import IdentityTheorems

  type Row = (OrgId, AccountId)
  type TxnId = int

  /** One owner-reducing transaction: two judge a whole account, two judge one membership. */
  datatype Reduction =
    | Disable(account: AccountId, record: Account)
    | Unlink(subject: Subject, account: AccountId)
    | Remove(org: OrgId, account: AccountId, event: MembershipEvent, now: Moment)
    | Downgrade(org: OrgId, account: AccountId, event: MembershipEvent)
  {
    predicate AccountWide() { Disable? || Unlink? }

    /** Committing would cost this owner, a link's holder or the account named, its role in `o`, standing or a login. */
    predicate Touches(s: Store, o: OrgId, owner: AccountId) {
      && Owns(s, o, owner)
      && match this
         case Disable(account, _) => owner == account
         case Unlink(subject, _) => subject in s.links && s.links[subject] == owner
         case Remove(org, account, _, _) => owner == account && org == o
         case Downgrade(org, account, _) => owner == account && org == o
    }

    /** Whether the transaction judges `o`: it is about an owner there. */
    predicate Judges(s: Store, o: OrgId) {
      Touches(s, o, account)
    }
  }

  datatype Phase = Locking(todo: seq<Row>) | Decided

  datatype Open = Open(what: Reduction, phase: Phase, held: set<Row>)

  datatype System = System(db: Store, txns: map<TxnId, Open>, locks: map<Row, TxnId>)

  // ----- what a transaction locks, decides and writes ------------------------------------------

  /** The owner rows the locking statement selects: all those of every organization it may judge. */
  predicate InLockSet(s: Store, r: Reduction, row: Row) {
    Owns(s, row.0, row.1) && (if r.AccountWide() then Owns(s, row.0, r.account) else row.0 == r.org)
  }

  /** The decision, read from the committed tables once every row is held. */
  ghost predicate Allows(s: Store, r: Reduction, held: set<Row>) {
    match r
    case Disable(account, _) =>
      account in s.accounts
      && forall row :: row in held && row.1 == account ==> OtherEffectiveOwners(s, row.0, account) != {}
    case Unlink(subject, account) =>
      || KeepsLogin(s, account, subject)
      || forall row :: row in held && row.1 == account ==> OtherEffectiveOwners(s, row.0, account) != {}
    case Remove(org, account, _, _) =>
      (org, account) in s.memberships
      && ((org, account) in held ==> OtherEffectiveOwners(s, org, account) != {})
    case Downgrade(org, account, _) =>
      (org, account) in s.memberships
      && ((org, account) in held ==> OtherEffectiveOwners(s, org, account) != {})
  }

  ghost function Committed(s: Store, r: Reduction): Store {
    match r
    case Disable(account, record) => AccountWritten(s, account, record)
    case Unlink(subject, _) => UnlinkWritten(s, subject)
    case Remove(org, account, event, now) => RevokeWritten(s, org, account, event, now)
    case Downgrade(org, account, event) => DemoteWritten(s, org, account, event)
  }

  // ----- steps ---------------------------------------------------------------------------------

  /** An unlinking is of a link its account holds, and a disablement writes a disabled record. */
  predicate Startable(s: Store, r: Reduction) {
    && (r.Unlink? ==> r.subject in s.links && s.links[r.subject] == r.account)
    && (r.Disable? ==> r.record.disabledAt.Some?)
  }

  ghost predicate Begin(x: System, y: System, t: TxnId, r: Reduction, todo: seq<Row>) {
    && t !in x.txns && Startable(x.db, r)
    && (forall row :: row in todo <==> InLockSet(x.db, r, row))
    && y == x.(txns := x.txns[t := Open(r, Locking(todo), {})])
  }

  /** Take the next planned row, or pass over one that stopped being an owner row meanwhile. */
  ghost predicate Acquire(x: System, y: System, t: TxnId) {
    && t in x.txns && x.txns[t].phase.Locking? && x.txns[t].phase.todo != []
    && var open := x.txns[t];
       var row, rest := open.phase.todo[0], open.phase.todo[1..];
       && row !in x.locks
       && y == if Owns(x.db, row.0, row.1)
               then x.(txns := x.txns[t := open.(phase := Locking(rest), held := open.held + {row})],
                       locks := x.locks[row := t])
               else x.(txns := x.txns[t := open.(phase := Locking(rest))])
  }

  ghost predicate Decide(x: System, y: System, t: TxnId) {
    && t in x.txns && x.txns[t].phase == Locking([])
    && Allows(x.db, x.txns[t].what, x.txns[t].held)
    && y == x.(txns := x.txns[t := x.txns[t].(phase := Decided)])
  }

  function Released(locks: map<Row, TxnId>, t: TxnId): map<Row, TxnId> {
    map row | row in locks && locks[row] != t :: locks[row]
  }

  ghost predicate Commit(x: System, y: System, t: TxnId) {
    && t in x.txns && x.txns[t].phase.Decided?
    && y == System(Committed(x.db, x.txns[t].what), x.txns - {t}, Released(x.locks, t))
  }

  /** A refused decision, a failure or a rollback, at any point. */
  ghost predicate Abort(x: System, y: System, t: TxnId) {
    t in x.txns && y == System(x.db, x.txns - {t}, Released(x.locks, t))
  }

  /** What any other transaction may do meanwhile: take no owner row away, and weaken nobody's login. */
  ghost predicate Benign(s: Store, s': Store) {
    && (forall org, account :: Owns(s, org, account) ==> Owns(s', org, account))
    && s.accounts.Keys <= s'.accounts.Keys && s.links.Keys <= s'.links.Keys
    && (forall subject :: subject in s.links ==> s'.links[subject] == s.links[subject])
    && (forall key :: key in s.memberships ==> key in s'.memberships)
    && (forall id :: id in s.accounts ==>
          && (s.accounts[id].CanAct() ==> s'.accounts[id].CanAct())
          && (s.accounts[id].verifier.Some? ==> s'.accounts[id].verifier.Some?))
  }

  ghost predicate Elsewhere(x: System, y: System) {
    Benign(x.db, y.db) && y == x.(db := y.db)
  }

  ghost predicate Step(x: System, y: System) {
    || (exists t, r, todo :: Begin(x, y, t, r, todo))
    || (exists t :: Acquire(x, y, t) || Decide(x, y, t) || Commit(x, y, t) || Abort(x, y, t))
    || Elsewhere(x, y)
  }

  // ----- the invariant -------------------------------------------------------------------------

  /** What a decision established of one organization, and what must still hold when it commits. */
  ghost predicate Stands(s: Store, r: Reduction, org: OrgId) {
    r.Judges(s, org) ==>
      OtherEffectiveOwners(s, org, r.account) != {} || (r.Unlink? && KeepsLogin(s, r.account, r.subject))
  }

  /** The row is held, or still to be taken. */
  predicate Covers(open: Open, row: Row) {
    row in open.held || (open.phase.Locking? && row in open.phase.todo)
  }

  /** An open reduction that judges an organization covers its own row there, and once decided stands. */
  ghost predicate Planned(s: Store, open: Open, org: OrgId) {
    && (open.what.Judges(s, org) ==> Covers(open, (org, open.what.account)))
    && (open.phase.Decided? ==> Stands(s, open.what, org))
  }

  ghost predicate LocksAgree(x: System) {
    && (forall row :: row in x.locks ==> x.locks[row] in x.txns && row in x.txns[x.locks[row]].held)
    && (forall t, row :: t in x.txns && row in x.txns[t].held ==> row in x.locks && x.locks[row] == t)
  }

  /** The only owner an open reduction touches is the one it is about. */
  ghost predicate Named(x: System, org: OrgId) {
    forall t, owner :: t in x.txns && x.txns[t].what.Touches(x.db, org, owner) ==> owner == x.txns[t].what.account
  }

  predicate JudgesIn(x: System, t: TxnId, org: OrgId) {
    t in x.txns && x.txns[t].what.Judges(x.db, org)
  }

  /** Of two that judge one organization, one covers the other's own row. */
  ghost predicate Meet(x: System, org: OrgId) {
    forall t, u :: JudgesIn(x, t, org) && JudgesIn(x, u, org) && t != u ==>
      Covers(x.txns[t], (org, x.txns[u].what.account)) || Covers(x.txns[u], (org, x.txns[t].what.account))
  }

  /** The invariant, one organization at a time. */
  ghost predicate Safe(x: System, org: OrgId) {
    LocksAgree(x) && Named(x, org) && Meet(x, org) && forall t :: t in x.txns ==> Planned(x.db, x.txns[t], org)
  }

  // ----- two transactions that both hold their locks do not meet -------------------------------

  lemma MissedOwnerIsUntouched(s: Store, r: Reduction, org: OrgId, owner: AccountId)
    requires Owns(s, org, owner) && !r.Touches(s, org, owner)
    ensures Owns(Committed(s, r), org, owner)
    ensures owner in Committed(s, r).accounts <==> owner in s.accounts
    ensures owner in s.accounts ==> Committed(s, r).accounts[owner] == s.accounts[owner]
    ensures forall subject :: subject in s.links && s.links[subject] == owner ==>
              subject in Committed(s, r).links && Committed(s, r).links[subject] == owner
  {
  }

  lemma CommitOnlyRemovesOwners(s: Store, r: Reduction)
    ensures forall org, account :: Owns(Committed(s, r), org, account) ==> Owns(s, org, account)
    ensures forall what, row :: InLockSet(Committed(s, r), what, row) ==> InLockSet(s, what, row)
    ensures forall subject :: subject in Committed(s, r).links ==>
              subject in s.links && Committed(s, r).links[subject] == s.links[subject]
  {
  }

  /** A row has one holder. */
  lemma BothHold(x: System, t: TxnId, u: TxnId, row: Row)
    requires LocksAgree(x) && t in x.txns && u in x.txns && row in x.txns[t].held && row in x.txns[u].held
    ensures t == u
  {
    assert x.locks[row] == t && x.locks[row] == u;
  }

  /** Of two that judge one organization and both decided, one would hold a row the other holds. */
  lemma DecidedDoNotMeet(x: System, t: TxnId, u: TxnId, org: OrgId)
    requires Safe(x, org) && t in x.txns && u in x.txns && t != u
    requires x.txns[t].phase.Decided? && x.txns[u].phase.Decided? && x.txns[t].what.Judges(x.db, org)
    ensures !x.txns[u].what.Judges(x.db, org)
  {
    if JudgesIn(x, u, org) && JudgesIn(x, t, org) {
      var row := if (org, x.txns[u].what.account) in x.txns[t].held then (org, x.txns[u].what.account)
                 else (org, x.txns[t].what.account);
      BothHold(x, t, u, row);
    }
  }

  /** So whatever owner one of them judges beside, the other leaves alone. */
  lemma HoldersMiss(x: System, t: TxnId, u: TxnId, org: OrgId, owner: AccountId)
    requires Safe(x, org) && t in x.txns && u in x.txns && t != u
    requires x.txns[t].phase.Decided? && x.txns[u].phase.Decided? && x.txns[t].what.Judges(x.db, org)
    ensures !x.txns[u].what.Touches(x.db, org, owner)
  {
    DecidedDoNotMeet(x, t, u, org);
  }

  lemma DecisionOutlivesCommit(x: System, t: TxnId, u: TxnId, org: OrgId)
    requires Safe(x, org) && t in x.txns && u in x.txns && t != u
    requires x.txns[t].phase.Decided? && x.txns[u].phase.Decided?
    ensures Stands(Committed(x.db, x.txns[u].what), x.txns[t].what, org)
  {
    var s, r := x.db, x.txns[t].what;
    var s' := Committed(s, x.txns[u].what);
    CommitOnlyRemovesOwners(s, x.txns[u].what);
    if r.Judges(s', org) {
      if OtherEffectiveOwners(s, org, r.account) != {} {
        var other :| other in OtherEffectiveOwners(s, org, r.account);
        HoldersMiss(x, t, u, org, other);
        MissedOwnerIsUntouched(s, x.txns[u].what, org, other);
        EffectiveStays(s, s', org, other);
        assert other in OtherEffectiveOwners(s', org, r.account);
      } else {
        HoldersMiss(x, t, u, org, r.account);
        MissedOwnerIsUntouched(s, x.txns[u].what, org, r.account);
        LoginStays(s, s', r.account, r.subject);
      }
    }
  }

  lemma EffectiveStays(s: Store, s': Store, org: OrgId, owner: AccountId)
    requires EffectiveOwner(s, org, owner) && Owns(s', org, owner)
    requires owner in s'.accounts && s'.accounts[owner].CanAct()
    requires s.accounts[owner].verifier.Some? ==> s'.accounts[owner].verifier.Some?
    requires forall subject :: subject in s.links && s.links[subject] == owner ==>
               subject in s'.links && s'.links[subject] == owner
    ensures EffectiveOwner(s', org, owner)
  {
    if s.accounts[owner].verifier.None? {
      var subject :| subject in s.links && s.links[subject] == owner;
      assert subject in s'.links && s'.links[subject] == owner;
    }
  }

  lemma LoginStays(s: Store, s': Store, account: AccountId, subject: Subject)
    requires KeepsLogin(s, account, subject)
    requires account in s.accounts && s.accounts[account].verifier.Some? ==>
               account in s'.accounts && s'.accounts[account].verifier.Some?
    requires forall other :: other in s.links && s.links[other] == account ==>
               other in s'.links && s'.links[other] == account
    ensures KeepsLogin(s', account, subject)
  {
    if !(account in s.accounts && s.accounts[account].verifier.Some?) {
      var other :| other in s.links && other != subject && s.links[other] == account;
      assert other in s'.links && s'.links[other] == account;
    }
  }

  // ----- steps keep the invariant --------------------------------------------------------------

  /** An open reduction comes to touch one more owner of the organization: a late owner row, or a fresh link. */
  ghost predicate ComesToTouch(x: System, y: System, org: OrgId) {
    exists t, owner :: t in x.txns
      && !x.txns[t].what.Touches(x.db, org, owner) && x.txns[t].what.Touches(y.db, org, owner)
  }

  lemma StandsStays(s: Store, s': Store, r: Reduction, org: OrgId)
    requires Benign(s, s') && Stands(s, r, org) && (r.Judges(s', org) ==> r.Judges(s, org))
    ensures Stands(s', r, org)
  {
    if r.Judges(s', org) {
      if OtherEffectiveOwners(s, org, r.account) != {} {
        var other :| other in OtherEffectiveOwners(s, org, r.account);
        EffectiveStays(s, s', org, other);
        assert other in OtherEffectiveOwners(s', org, r.account);
      } else {
        LoginStays(s, s', r.account, r.subject);
      }
    }
  }

  lemma ElsewhereKeepsSafe(x: System, y: System, org: OrgId)
    requires Safe(x, org) && Elsewhere(x, y) && !ComesToTouch(x, y, org)
    ensures Safe(y, org)
  {
    forall t | t in y.txns ensures Planned(y.db, y.txns[t], org) {
      if y.txns[t].phase.Decided? {
        StandsStays(x.db, y.db, x.txns[t].what, org);
      }
    }
  }

  /** A commit makes no reduction touch more. */
  lemma CommitTouchesNoMore(s: Store, r: Reduction, what: Reduction, org: OrgId, owner: AccountId)
    requires what.Touches(Committed(s, r), org, owner)
    ensures what.Touches(s, org, owner)
  {
    CommitOnlyRemovesOwners(s, r);
  }

  lemma CommitKeepsSafe(x: System, y: System, u: TxnId, org: OrgId)
    requires Safe(x, org) && Commit(x, y, u)
    ensures Safe(y, org)
  {
    forall what: Reduction, owner | what.Touches(y.db, org, owner) ensures what.Touches(x.db, org, owner) {
      CommitTouchesNoMore(x.db, x.txns[u].what, what, org, owner);
    }
    forall t | t in y.txns ensures Planned(y.db, y.txns[t], org) {
      if x.txns[t].phase.Decided? {
        DecisionOutlivesCommit(x, t, u, org);
      }
    }
  }

  lemma DecideStands(x: System, t: TxnId, org: OrgId)
    requires Safe(x, org) && t in x.txns && x.txns[t].phase == Locking([])
    requires Allows(x.db, x.txns[t].what, x.txns[t].held)
    ensures Stands(x.db, x.txns[t].what, org)
  {
    assert Planned(x.db, x.txns[t], org);
  }

  /** A new plan covers every owner row of the organizations it judges, whoever else is open. */
  lemma BeginKeepsSafe(x: System, y: System, t: TxnId, r: Reduction, todo: seq<Row>, org: OrgId)
    requires Safe(x, org) && Begin(x, y, t, r, todo)
    ensures Safe(y, org)
  {
    if r.Judges(x.db, org) {
      forall owner | Owns(x.db, org, owner) ensures Covers(y.txns[t], (org, owner)) {
        assert InLockSet(x.db, r, (org, owner));
      }
    }
  }

  /** A row passed over is nobody's own row there any more. */
  lemma AcquireKeepsCovers(x: System, y: System, t: TxnId, row: Row)
    requires Acquire(x, y, t) && Owns(x.db, row.0, row.1) && Covers(x.txns[t], row)
    ensures Covers(y.txns[t], row)
  {
    assert x.txns[t].phase.todo == [x.txns[t].phase.todo[0]] + x.txns[t].phase.todo[1..];
  }

  lemma AcquireKeepsSafe(x: System, y: System, t: TxnId, org: OrgId)
    requires Safe(x, org) && Acquire(x, y, t)
    ensures Safe(y, org)
  {
    forall owner | Owns(x.db, org, owner) && Covers(x.txns[t], (org, owner)) ensures Covers(y.txns[t], (org, owner)) {
      AcquireKeepsCovers(x, y, t, (org, owner));
    }
  }

  lemma DecideKeepsSafe(x: System, y: System, t: TxnId, org: OrgId)
    requires Safe(x, org) && Decide(x, y, t)
    ensures Safe(y, org)
  {
    DecideStands(x, t, org);
  }

  lemma AbortKeepsSafe(x: System, y: System, t: TxnId, org: OrgId)
    requires Safe(x, org) && Abort(x, y, t)
    ensures Safe(y, org)
  {
  }

  lemma StepKeepsSafe(x: System, y: System, org: OrgId)
    requires Safe(x, org) && Step(x, y) && !ComesToTouch(x, y, org)
    ensures Safe(y, org)
  {
    if Elsewhere(x, y) {
      ElsewhereKeepsSafe(x, y, org);
    } else if t, r, todo :| Begin(x, y, t, r, todo) {
      BeginKeepsSafe(x, y, t, r, todo, org);
    } else {
      var t :| Acquire(x, y, t) || Decide(x, y, t) || Commit(x, y, t) || Abort(x, y, t);
      if Commit(x, y, t) {
        CommitKeepsSafe(x, y, t, org);
      } else if Acquire(x, y, t) {
        AcquireKeepsSafe(x, y, t, org);
      } else if Decide(x, y, t) {
        DecideKeepsSafe(x, y, t, org);
      } else {
        AbortKeepsSafe(x, y, t, org);
      }
    }
  }

  // ----- exactly which commits strand an organization ------------------------------------------

  /** Whose owner rows or login the reduction takes: for an unlinking, whoever holds the link by now. */
  function Loser(s: Store, r: Reduction): AccountId {
    if r.Unlink? && r.subject in s.links then s.links[r.subject] else r.account
  }

  /** The reduction costs its loser the part of an effective owner of `org`. */
  predicate Hits(s: Store, r: Reduction, org: OrgId) {
    match r
    case Disable(account, _) => account in s.accounts && !s.accounts[account].IsPurged()
    case Unlink(subject, _) => subject in s.links && !KeepsLogin(s, s.links[subject], subject)
    case Remove(o, _, _, _) => o == org
    case Downgrade(o, _, _) => o == org
  }

  predicate TakesLast(s: Store, r: Reduction, org: OrgId) {
    && Hits(s, r, org) && EffectiveOwner(s, org, Loser(s, r))
    && OtherEffectiveOwners(s, org, Loser(s, r)) == {}
  }

  /** A commit makes nobody an effective owner. */
  lemma CommitMakesNoOwner(s: Store, r: Reduction, org: OrgId, owner: AccountId)
    requires r.Disable? ==> r.record.disabledAt.Some?
    requires EffectiveOwner(Committed(s, r), org, owner)
    ensures EffectiveOwner(s, org, owner)
  {
    CommitOnlyRemovesOwners(s, r);
    if HasLink(Committed(s, r), owner) {
      var link :| link in Committed(s, r).links && Committed(s, r).links[link] == owner;
      assert link in s.links && s.links[link] == owner;
    }
  }

  /** One owner, one commit: it stays effective unless it is the loser and the reduction hits it. */
  lemma OwnerIsLostExactlyWhen(s: Store, r: Reduction, org: OrgId, owner: AccountId)
    requires r.Disable? ==> r.record.disabledAt.Some?
    requires EffectiveOwner(s, org, owner)
    ensures !EffectiveOwner(Committed(s, r), org, owner) <==> Hits(s, r, org) && owner == Loser(s, r)
  {
    var s' := Committed(s, r);
    if r.Unlink? {
      LoginIsLostExactlyWhen(s, r.subject, owner);
    } else {
      assert s'.links == s.links;
      assert HasLink(s', owner) == HasLink(s, owner);
    }
  }

  lemma LoginIsLostExactlyWhen(s: Store, subject: Subject, owner: AccountId)
    requires owner in s.accounts && (s.accounts[owner].verifier.Some? || HasLink(s, owner))
    ensures !(s.accounts[owner].verifier.Some? || HasLink(UnlinkWritten(s, subject), owner))
      <==> subject in s.links && s.links[subject] == owner && !KeepsLogin(s, owner, subject)
  {
    var s' := UnlinkWritten(s, subject);
    if HasLink(s', owner) {
      var link :| link in s'.links && s'.links[link] == owner;
      assert link in s.links && link != subject && s.links[link] == owner;
    } else if HasLink(s, owner) {
      forall other | other in s.links && other != subject ensures s.links[other] != owner {
        assert other in s'.links;
      }
    }
  }

  /**
   * A commit leaves an organization without its last effective owner exactly when the one it takes out
   * is that owner. Nothing is asked of the locks: this is what they are there to prevent.
   */
  lemma CommitStrandsExactlyWhen(s: Store, r: Reduction, org: OrgId)
    requires r.Disable? ==> r.record.disabledAt.Some?
    requires HasEffectiveOwner(s, org)
    ensures !HasEffectiveOwner(Committed(s, r), org) <==> TakesLast(s, r, org)
  {
    var s', loser := Committed(s, r), Loser(s, r);
    if HasEffectiveOwner(s', org) {
      var owner :| EffectiveOwner(s', org, owner);
      CommitMakesNoOwner(s, r, org, owner);
      OwnerIsLostExactlyWhen(s, r, org, owner);
      if owner != loser {
        assert owner in OtherEffectiveOwners(s, org, loser);
      }
    } else {
      var owner :| EffectiveOwner(s, org, owner);
      OwnerIsLostExactlyWhen(s, r, org, owner);
      forall other | other in OtherEffectiveOwners(s, org, loser) ensures EffectiveOwner(s', org, other) {
        OwnerIsLostExactlyWhen(s, r, org, other);
      }
      assert OtherEffectiveOwners(s, org, loser) == {};
    }
  }

  ghost predicate Disables(x: System) {
    forall t :: t in x.txns && x.txns[t].what.Disable? ==> x.txns[t].what.record.disabledAt.Some?
  }

  lemma BenignKeepsOwners(s: Store, s': Store, org: OrgId)
    requires Benign(s, s') && HasEffectiveOwner(s, org)
    ensures HasEffectiveOwner(s', org)
  {
    var owner :| EffectiveOwner(s, org, owner);
    EffectiveStays(s, s', org, owner);
  }

  lemma OnlyTwoKindsWrite(x: System, y: System)
    requires Step(x, y) && x.db != y.db
    ensures Elsewhere(x, y) || exists t :: Commit(x, y, t)
  {
  }

  lemma StepStrandsExactlyWhen(x: System, y: System, org: OrgId)
    requires Disables(x) && Step(x, y) && HasEffectiveOwner(x.db, org)
    ensures !HasEffectiveOwner(y.db, org) <==> exists t :: Commit(x, y, t) && TakesLast(x.db, x.txns[t].what, org)
  {
    if t :| Commit(x, y, t) && TakesLast(x.db, x.txns[t].what, org) {
      CommitStrandsExactlyWhen(x.db, x.txns[t].what, org);
    } else if x.db != y.db {
      OnlyTwoKindsWrite(x, y);
      if Elsewhere(x, y) {
        BenignKeepsOwners(x.db, y.db, org);
      } else {
        var t :| Commit(x, y, t);
        CommitStrandsExactlyWhen(x.db, x.txns[t].what, org);
      }
    }
  }

  lemma StepKeepsDisables(x: System, y: System)
    requires Disables(x) && Step(x, y)
    ensures Disables(y)
  {
  }

  // ----- whole runs ----------------------------------------------------------------------------

  ghost predicate Trace(xs: seq<System>) {
    && xs != [] && xs[0].txns == map[] && xs[0].locks == map[]
    && forall i :: 0 <= i < |xs| - 1 ==> Step(xs[i], xs[i + 1])
  }

  lemma {:induction false} TracesDisable(xs: seq<System>, i: nat)
    requires Trace(xs) && i < |xs|
    ensures Disables(xs[i])
  {
    if i == 0 {
    } else {
      TracesDisable(xs, i - 1);
      assert Step(xs[i - 1], xs[i - 1 + 1]);
      StepKeepsDisables(xs[i - 1], xs[i]);
    }
  }

  ghost predicate OwnedAt(xs: seq<System>, k: nat, org: OrgId)
    requires k < |xs|
  {
    HasEffectiveOwner(xs[k].db, org)
  }

  /** Step `k` is a commit that takes an organization's last effective owner. */
  ghost predicate StrandsAt(xs: seq<System>, k: nat, org: OrgId)
    requires k + 1 < |xs|
  {
    exists t :: Commit(xs[k], xs[k + 1], t) && TakesLast(xs[k].db, xs[k].txns[t].what, org)
  }

  lemma RunStrandsExactlyWhen(xs: seq<System>, k: nat, org: OrgId)
    requires Trace(xs) && k + 1 < |xs| && OwnedAt(xs, k, org)
    ensures !OwnedAt(xs, k + 1, org) <==> StrandsAt(xs, k, org)
  {
    TracesDisable(xs, k);
    StepStrandsExactlyWhen(xs[k], xs[k + 1], org);
  }

  /**
   * Over any run whatever, late owner rows and re-created links included, an organization keeps an
   * effective owner exactly as long as no commit takes its last one.
   */
  lemma {:induction false} StrandedExactlyByCommits(xs: seq<System>, org: OrgId, i: nat, j: nat)
    requires Trace(xs) && i <= j < |xs| && OwnedAt(xs, i, org)
    ensures (forall k: nat :: i <= k <= j ==> OwnedAt(xs, k, org))
      <==> forall k: nat :: i <= k < j ==> !StrandsAt(xs, k, org)
    decreases j - i
  {
    if i == j {
    } else {
      StrandedExactlyByCommits(xs, org, i, j - 1);
      if forall k: nat :: i <= k <= j - 1 ==> OwnedAt(xs, k, org) {
        RunStrandsExactlyWhen(xs, j - 1, org);
        OwnedOneMore(xs, org, i, j);
      } else {
        var k: nat :| i <= k <= j - 1 && !OwnedAt(xs, k, org);
        var m: nat :| i <= m < j - 1 && StrandsAt(xs, m, org);
      }
    }
  }

  lemma OwnedOneMore(xs: seq<System>, org: OrgId, i: nat, j: nat)
    requires i < j < |xs| && forall k: nat :: i <= k < j ==> OwnedAt(xs, k, org)
    requires forall k: nat :: i <= k < j - 1 ==> !StrandsAt(xs, k, org)
    requires !OwnedAt(xs, j, org) <==> StrandsAt(xs, j - 1, org)
    ensures (forall k: nat :: i <= k <= j ==> OwnedAt(xs, k, org))
      <==> forall k: nat :: i <= k < j ==> !StrandsAt(xs, k, org)
  {
    if OwnedAt(xs, j, org) {
      forall k: nat | i <= k < j ensures !StrandsAt(xs, k, org) {
      }
    } else {
      assert StrandsAt(xs, j - 1, org);
    }
  }

  // ----- the safety theorem --------------------------------------------------------------------

  /** While the lock protocol's invariant holds, no commit takes a last owner. */
  lemma SafeCommitTakesNoLast(x: System, t: TxnId, org: OrgId)
    requires Safe(x, org) && t in x.txns && x.txns[t].phase.Decided?
    ensures !TakesLast(x.db, x.txns[t].what, org)
  {
    var r := x.txns[t].what;
    if Hits(x.db, r, org) && EffectiveOwner(x.db, org, Loser(x.db, r)) {
      assert r.Touches(x.db, org, Loser(x.db, r));
      assert Planned(x.db, x.txns[t], org);
    }
  }

  /** At step `k` no open reduction comes to touch one more owner of this organization. */
  ghost predicate Quiet(xs: seq<System>, k: nat, org: OrgId)
    requires k + 1 < |xs|
  {
    !ComesToTouch(xs[k], xs[k + 1], org)
  }

  lemma {:induction false} TracesAreSafe(xs: seq<System>, org: OrgId, i: nat)
    requires Trace(xs) && i < |xs|
    requires forall k: nat :: k < i ==> Quiet(xs, k, org)
    ensures Safe(xs[i], org)
  {
    if i == 0 {
    } else {
      TracesAreSafe(xs, org, i - 1);
      assert Step(xs[i - 1], xs[i - 1 + 1]) && Quiet(xs, i - 1, org);
      StepKeepsSafe(xs[i - 1], xs[i], org);
    }
  }

  /**
   * Under every interleaving of any number of disablements, removals, downgrades and unlinkings, an
   * organization that has an effective owner never comes to have none, unless some reduction that is open
   * came to touch one more owner of it. Owner rows of anybody else may be added, here as elsewhere.
   */
  lemma InterleavedOwnersNeverRunOut(xs: seq<System>, org: OrgId, i: nat, j: nat)
    requires Trace(xs) && i <= j < |xs| && HasEffectiveOwner(xs[i].db, org)
    requires forall k: nat :: k < j ==> Quiet(xs, k, org)
    ensures HasEffectiveOwner(xs[j].db, org)
  {
    assert OwnedAt(xs, i, org);
    forall k: nat | i <= k < j ensures !StrandsAt(xs, k, org) {
      TracesAreSafe(xs, org, k);
      forall t | Commit(xs[k], xs[k + 1], t) ensures !TakesLast(xs[k].db, xs[k].txns[t].what, org) {
        SafeCommitTakesNoLast(xs[k], t, org);
      }
    }
    StrandedExactlyByCommits(xs, org, i, j);
    assert OwnedAt(xs, j, org);
  }

  /** A link made for a subject that an open unlinking is about to delete. */
  ghost predicate Relinks(x: System, y: System) {
    exists t :: t in x.txns && x.txns[t].what.Unlink?
      && x.txns[t].what.subject !in x.db.links && x.txns[t].what.subject in y.db.links
  }

  /** An owner row made for the account of an open reduction, or for the holder of a link one deletes. */
  ghost predicate AddsOwner(x: System, y: System, org: OrgId) {
    exists t :: t in x.txns && !Owns(x.db, org, Loser(y.db, x.txns[t].what))
      && Owns(y.db, org, Loser(y.db, x.txns[t].what))
  }

  /** The two ways in which that can happen. */
  lemma ComesToTouchMeans(x: System, y: System, org: OrgId)
    requires Step(x, y) && ComesToTouch(x, y, org)
    ensures AddsOwner(x, y, org) || Relinks(x, y)
  {
    var t, owner :| t in x.txns
      && !x.txns[t].what.Touches(x.db, org, owner) && x.txns[t].what.Touches(y.db, org, owner);
    if x.db != y.db {
      OnlyTwoKindsWrite(x, y);
      if u :| Commit(x, y, u) {
        if x.txns[t].what.Touches(Committed(x.db, x.txns[u].what), org, owner) {
          CommitTouchesNoMore(x.db, x.txns[u].what, x.txns[t].what, org, owner);
        }
      } else {
        assert owner == Loser(y.db, x.txns[t].what);
      }
    }
  }

  /** So it is enough that no open reduction's loser gains an owner row there and no open unlinking's link returns. */
  lemma OwnersNeverRunOutUndisturbed(xs: seq<System>, org: OrgId, i: nat, j: nat)
    requires Trace(xs) && i <= j < |xs| && HasEffectiveOwner(xs[i].db, org)
    requires forall k :: 0 <= k < j ==> !Relinks(xs[k], xs[k + 1]) && !AddsOwner(xs[k], xs[k + 1], org)
    ensures HasEffectiveOwner(xs[j].db, org)
  {
    forall k: nat | k < j ensures Quiet(xs, k, org) {
      assert Step(xs[k], xs[k + 1]);
      if ComesToTouch(xs[k], xs[k + 1], org) {
        ComesToTouchMeans(xs[k], xs[k + 1], org);
      }
    }
    InterleavedOwnersNeverRunOut(xs, org, i, j);
  }

  // ----- the step relation and the whole transactions ------------------------------------------

  predicate AddsOwnerRow(t: Txn) {
    t.OfMembership? && (t.m.CreateOrganization? || t.m.Promote? || (t.m.Redeem? && t.m.role == Owner))
  }

  /** Every whole transaction that does not reduce owners may run in between; three kinds add owner rows. */
  lemma OtherTransactionsAreBenign(s: Store, t: Txn)
    requires IdentityHistory.Sound(s) && IdentityHistory.Meant(s, t)
    requires !IdentityTheorems.OwnerReducing(t)
    ensures Benign(s, Apply(s, t))
    ensures !AddsOwnerRow(t) ==> forall org, account :: Owns(Apply(s, t), org, account) ==> Owns(s, org, account)
  {
    if Lands(s, t) {
      match t
      case OfAccount(a) => AccountTxnIsBenign(s, a);
      case OfMembership(m) => MembershipTxnIsBenign(s, m);
      case OfInvitation(_) =>
      case OfSession(_) =>
    }
  }

  lemma AccountTxnIsBenign(s: Store, t: AccountTxn)
    requires IdentityHistory.AccountsSound(s.accounts) && IdentityHistory.WritesLater(s, t) && AccountLands(s, t)
    requires !IdentityTheorems.OwnerReducing(OfAccount(t))
    ensures Benign(s, AccountTxnWritten(s, t))
  {
  }

  lemma MembershipTxnIsBenign(s: Store, t: MembershipTxn)
    requires IdentityHistory.RowsSound(s) && IdentityHistory.TellsRoles(t) && MembershipLands(s, t)
    requires !IdentityTheorems.OwnerReducing(OfMembership(t))
    ensures Benign(s, MembershipTxnWritten(s, t))
    ensures !AddsOwnerRow(OfMembership(t)) ==>
      forall org, account :: Owns(MembershipTxnWritten(s, t), org, account) ==> Owns(s, org, account)
  {
  }

  /** The whole transaction an open reduction amounts to. */
  function AsTxn(r: Reduction): Txn {
    match r
    case Disable(account, record) => OfAccount(ReduceOwner(account, record))
    case Unlink(subject, _) => OfAccount(UnlinkIdentity(subject))
    case Remove(org, account, event, now) => OfMembership(Revoke(org, account, event.actor, event.id, now))
    case Downgrade(org, account, event) =>
      OfMembership(Demote(org, account, event.actor, event.id, event.occurredAt))
  }

  /** The row a membership change deletes or updates is still the one its event describes. */
  ghost predicate RowIsCurrent(s: Store, r: Reduction) {
    match r
    case Remove(org, account, event, now) =>
      && (org, account) in s.memberships
      && event == MembershipEvent(
           event.id, org, account, event.actor, Some(s.memberships[(org, account)]), None, now)
    case Downgrade(org, account, event) =>
      && (org, account) in s.memberships
      && event == MembershipEvent(
           event.id, org, account, event.actor, Some(s.memberships[(org, account)]), Some(Member), event.occurredAt)
    case _ => true
  }

  /**
   * Taken apart or whole, a reduction that commits has the same effect on the state it commits on exactly
   * when the membership row its event describes is still there and unchanged.
   */
  lemma CommitIsWholeTransactionExactlyWhen(x: System, y: System, t: TxnId)
    requires (forall org :: Safe(x, org)) && Commit(x, y, t)
    ensures y.db == Apply(x.db, AsTxn(x.txns[t].what)) <==> RowIsCurrent(x.db, x.txns[t].what)
  {
    var s, r := x.db, x.txns[t].what;
    match r
    case Disable(account, _) =>
      forall org | Owns(s, org, account) ensures OtherEffectiveOwners(s, org, account) != {} {
        DecidedStands(x, t, org);
      }
    case Unlink(subject, _) =>
      if subject in s.links {
        UnlinkingLands(x, t);
      } else {
        assert s.links - {subject} == s.links;
      }
    case Remove(org, _, event, _) =>
      DecidedStands(x, t, org);
      LastEntry(s, Committed(s, r), event);
    case Downgrade(org, _, event) =>
      DecidedStands(x, t, org);
      LastEntry(s, Committed(s, r), event);
  }

  lemma DecidedStands(x: System, t: TxnId, org: OrgId)
    requires Safe(x, org) && t in x.txns && x.txns[t].phase.Decided?
    ensures Stands(x.db, x.txns[t].what, org)
  {
    assert Planned(x.db, x.txns[t], org);
  }

  /** Whoever holds the link by now owns nothing its loss would strand. */
  lemma UnlinkingLands(x: System, t: TxnId)
    requires (forall org :: Safe(x, org)) && t in x.txns && x.txns[t].phase.Decided?
    requires x.txns[t].what.Unlink? && x.txns[t].what.subject in x.db.links
    ensures AccountLands(x.db, UnlinkIdentity(x.txns[t].what.subject))
  {
    var s, r := x.db, x.txns[t].what;
    var holder := s.links[r.subject];
    forall org | Owns(s, org, holder)
      ensures OtherEffectiveOwners(s, org, holder) != {} || KeepsLogin(s, holder, r.subject)
    {
      assert Safe(x, org) && r.Touches(s, org, holder);
      DecidedStands(x, t, org);
    }
  }

  /** A membership change writes its own event, whatever the row has become. */
  lemma LastEntry(s: Store, s': Store, event: MembershipEvent)
    requires s'.log == s.log + [LogEntry(event, None)]
    ensures |s'.log| == |s.log| + 1 && s'.log[|s.log|].event == event
  {
  }

  // ----- when a decision is granted ------------------------------------------------------------

  /** What the whole transaction's guard says of the reduction. */
  ghost predicate GuardAccepts(s: Store, r: Reduction) {
    match r
    case Disable(account, _) => ReductionOutcome(s, account) == Applied
    case Unlink(subject, account) => KeepsLogin(s, account, subject) || ReductionOutcome(s, account) != FinalOwner
    case Remove(org, account, _, _) => MembershipOutcome(s, org, account) == Applied
    case Downgrade(org, account, _) => MembershipOutcome(s, org, account) == Applied
  }

  /** An unlinking's link is still its account's. */
  predicate StillLinked(s: Store, r: Reduction) {
    r.Unlink? ==> r.subject in s.links && s.links[r.subject] == r.account
  }

  /** The link table's foreign key. */
  predicate LinksNameAccounts(s: Store) {
    forall subject :: subject in s.links ==> s.links[subject] in s.accounts
  }

  ghost predicate CanDecide(x: System, t: TxnId) {
    exists y: System :: Decide(x, y, t)
  }

  /** Holding every lock, it holds its own row in exactly the organizations its account owns. */
  lemma OwnRowsAreHeld(x: System, t: TxnId, org: OrgId)
    requires Safe(x, org) && t in x.txns && x.txns[t].phase == Locking([]) && StillLinked(x.db, x.txns[t].what)
    requires x.txns[t].what.AccountWide() || x.txns[t].what.org == org
    requires forall row :: row in x.txns[t].held && row.1 == x.txns[t].what.account ==> Owns(x.db, row.0, row.1)
    ensures (org, x.txns[t].what.account) in x.txns[t].held <==> Owns(x.db, org, x.txns[t].what.account)
  {
    assert Planned(x.db, x.txns[t], org);
  }

  /** Every own row it holds has another effective owner exactly when losing the account strands nothing. */
  lemma NothingIsStranded(x: System, t: TxnId)
    requires (forall org :: Safe(x, org)) && t in x.txns && x.txns[t].phase == Locking([])
    requires StillLinked(x.db, x.txns[t].what) && x.txns[t].what.AccountWide()
    requires forall row :: row in x.txns[t].held && row.1 == x.txns[t].what.account ==> Owns(x.db, row.0, row.1)
    ensures var account := x.txns[t].what.account;
            (forall row :: row in x.txns[t].held && row.1 == account ==> OtherEffectiveOwners(x.db, row.0, account) != {})
              <==> !Strands(x.db, account)
  {
    var account, held := x.txns[t].what.account, x.txns[t].held;
    forall org ensures (org, account) in held <==> Owns(x.db, org, account) {
      assert Safe(x, org);
      OwnRowsAreHeld(x, t, org);
    }
    if org :| Owns(x.db, org, account) && OtherEffectiveOwners(x.db, org, account) == {} {
      assert (org, account) in held;
    }
  }

  /**
   * A reduction that holds every lock it planned can decide exactly when the whole transaction's guard
   * accepts on the same tables: the rows it locked are all the guard needs to see.
   */
  lemma DecidesExactlyWhenGuardAccepts(x: System, t: TxnId)
    requires (forall org :: Safe(x, org)) && t in x.txns && x.txns[t].phase == Locking([])
    requires LinksNameAccounts(x.db) && StillLinked(x.db, x.txns[t].what)
    requires forall row :: row in x.txns[t].held && row.1 == x.txns[t].what.account ==> Owns(x.db, row.0, row.1)
    ensures CanDecide(x, t) <==> GuardAccepts(x.db, x.txns[t].what)
  {
    var r := x.txns[t].what;
    DecideIsEnabled(x, t);
    if r.AccountWide() {
      NothingIsStranded(x, t);
    } else {
      assert Safe(x, r.org);
      OwnRowsAreHeld(x, t, r.org);
    }
  }

  lemma DecideIsEnabled(x: System, t: TxnId)
    requires t in x.txns && x.txns[t].phase == Locking([])
    ensures CanDecide(x, t) <==> Allows(x.db, x.txns[t].what, x.txns[t].held)
  {
    if Allows(x.db, x.txns[t].what, x.txns[t].held) {
      assert Decide(x, x.(txns := x.txns[t := x.txns[t].(phase := Decided)]), t);
    }
  }

  /**
   * Whether or not its link is still there, an unlinking decides whenever the guard accepts, and past a guard
   * that refuses exactly when it locked no row of an organization that it would strand.
   */
  lemma UnlinkDecidesExactlyWhen(x: System, t: TxnId)
    requires t in x.txns && x.txns[t].phase == Locking([]) && x.txns[t].what.Unlink?
    requires x.txns[t].what.account in x.db.accounts
    requires forall row :: row in x.txns[t].held && row.1 == x.txns[t].what.account ==> Owns(x.db, row.0, row.1)
    ensures var account := x.txns[t].what.account;
            CanDecide(x, t) <==>
              || GuardAccepts(x.db, x.txns[t].what)
              || forall org :: Owns(x.db, org, account) && OtherEffectiveOwners(x.db, org, account) == {} ==>
                   (org, account) !in x.txns[t].held
  {
    DecideIsEnabled(x, t);
  }

  // ----- where the protocol stops short --------------------------------------------------------

  ghost predicate Reachable(x: System) {
    exists xs: seq<System> :: Trace(xs) && xs[|xs| - 1] == x
  }

  lemma ReachesStart(x: System)
    requires x.txns == map[] && x.locks == map[]
    ensures Reachable(x)
  {
    assert Trace([x]);
  }

  lemma ReachesOn(x: System, y: System)
    requires Reachable(x) && Step(x, y)
    ensures Reachable(y)
  {
    var xs :| Trace(xs) && xs[|xs| - 1] == x;
    var ys := xs + [y];
    forall i | 0 <= i < |ys| - 1 ensures Step(ys[i], ys[i + 1]) {
      if i < |xs| - 1 { assert Step(xs[i], xs[i + 1]); }
    }
    assert Trace(ys);
  }

  const RELINKED := Subject(0, 0)

  /** Account 2 owns organization 5; the link names `holder`. */
  function LinkedTables(holder: AccountId): Store {
    EMPTY.(
      accounts := map[1 := Account(Some(1), None, None), 2 := Account(Some(2), None, None)],
      organizations := {5}, memberships := map[(5, 2) := Owner], links := map[RELINKED := holder])
  }

  function Unlinking(phase: Phase): Open { Open(Unlink(RELINKED, 1), phase, {}) }

  lemma BeginsUnlinking(txns: map<TxnId, Open>, t: TxnId)
    requires t !in txns && Reachable(System(LinkedTables(1), txns, map[]))
    ensures Reachable(System(LinkedTables(1), txns[t := Unlinking(Locking([]))], map[]))
  {
    var x := System(LinkedTables(1), txns, map[]);
    var y := System(LinkedTables(1), txns[t := Unlinking(Locking([]))], map[]);
    assert forall row :: !InLockSet(LinkedTables(1), Unlink(RELINKED, 1), row);
    assert Begin(x, y, t, Unlink(RELINKED, 1), []);
    ReachesOn(x, y);
  }

  lemma DecidesUnlinking(db: Store, txns: map<TxnId, Open>, t: TxnId)
    requires t in txns && txns[t] == Unlinking(Locking([])) && Reachable(System(db, txns, map[]))
    ensures Reachable(System(db, txns[t := Unlinking(Decided)], map[]))
  {
    assert Decide(System(db, txns, map[]), System(db, txns[t := Unlinking(Decided)], map[]), t);
    ReachesOn(System(db, txns, map[]), System(db, txns[t := Unlinking(Decided)], map[]));
  }

  lemma CommitsUnlinking(db: Store, txns: map<TxnId, Open>, t: TxnId)
    requires t in txns && txns[t] == Unlinking(Decided) && Reachable(System(db, txns, map[]))
    ensures Reachable(System(UnlinkWritten(db, RELINKED), txns - {t}, map[]))
  {
    assert Commit(System(db, txns, map[]), System(UnlinkWritten(db, RELINKED), txns - {t}, map[]), t);
    ReachesOn(System(db, txns, map[]), System(UnlinkWritten(db, RELINKED), txns - {t}, map[]));
  }

  lemma OneUnlinkingAfterAnother(one: map<TxnId, Open>)
    requires one == map[1 := Unlinking(Locking([]))]
    ensures Reachable(System(UnlinkWritten(LinkedTables(1), RELINKED), one, map[]))
  {
    var two := one[2 := Unlinking(Locking([]))];
    ReachesStart(System(LinkedTables(1), map[], map[]));
    BeginsUnlinking(map[], 1);
    assert one == map[][1 := Unlinking(Locking([]))];
    BeginsUnlinking(one, 2);
    DecidesUnlinking(LinkedTables(1), two, 2);
    CommitsUnlinking(LinkedTables(1), two[2 := Unlinking(Decided)], 2);
    assert two[2 := Unlinking(Decided)] - {2} == one;
  }

  lemma LinkGoesToAnother(txns: map<TxnId, Open>)
    requires Reachable(System(UnlinkWritten(LinkedTables(1), RELINKED), txns, map[]))
    ensures Reachable(System(LinkedTables(2), txns, map[]))
  {
    var x := System(UnlinkWritten(LinkedTables(1), RELINKED), txns, map[]);
    assert Elsewhere(x, System(LinkedTables(2), txns, map[]));
    ReachesOn(x, System(LinkedTables(2), txns, map[]));
  }

  /**
   * Deleting a link by its key is not guarded against the key having been given to another account:
   * two open unlinkings of one subject, a fresh link between them, and the second one to commit
   * removes a stranger's only login.
   */
  lemma RelinkingCanStrand() returns (x: System, y: System, t: TxnId, org: OrgId)
    ensures Reachable(x) && Commit(x, y, t) && HasEffectiveOwner(x.db, org) && !HasEffectiveOwner(y.db, org)
  {
    var one: map<TxnId, Open> := map[1 := Unlinking(Locking([]))];
    OneUnlinkingAfterAnother(one);
    LinkGoesToAnother(one);
    DecidesUnlinking(LinkedTables(2), one, 1);
    x, t, org := System(LinkedTables(2), one[1 := Unlinking(Decided)], map[]), 1, 5;
    y := System(UnlinkWritten(LinkedTables(2), RELINKED), map[], map[]);
    assert Commit(x, y, 1);
    assert x.db.links[RELINKED] == 2;
    assert EffectiveOwner(x.db, 5, 2);
    assert TakesLast(x.db, Unlink(RELINKED, 1), 5);
    CommitStrandsExactlyWhen(x.db, Unlink(RELINKED, 1), 5);
  }

  /** The link is gone, and account 1 has come to own organization 5 as well. */
  function LateOwnerTables(): Store {
    EMPTY.(accounts := LinkedTables(1).accounts, organizations := {5}, memberships := map[(5, 2) := Owner, (5, 1) := Owner])
  }

  lemma LateOwnerReached(one: map<TxnId, Open>)
    requires one == map[1 := Unlinking(Locking([]))]
    ensures Reachable(System(LateOwnerTables(), one, map[]))
  {
    OneUnlinkingAfterAnother(one);
    var before := System(UnlinkWritten(LinkedTables(1), RELINKED), one, map[]);
    var after := System(LateOwnerTables(), one, map[]);
    assert Elsewhere(before, after);
    ReachesOn(before, after);
  }

  lemma LateOwnerIsRefused()
    ensures !GuardAccepts(LateOwnerTables(), Unlink(RELINKED, 1))
    ensures UnlinkWritten(LateOwnerTables(), RELINKED) == LateOwnerTables()
  {
    var db := LateOwnerTables();
    assert Owns(db, 5, 1) && OtherEffectiveOwners(db, 5, 1) == {};
    assert Strands(db, 1);
    assert db.links - {RELINKED} == db.links;
  }

  /**
   * Once somebody else has deleted the link, an owner row that comes in under the unlinking is one it never
   * locked, so it may decide where the guard would refuse. Its commit then deletes nothing.
   */
  lemma GoneLinkIsNotJudged() returns (x: System, t: TxnId)
    ensures Reachable(x) && (forall org :: Safe(x, org)) && t in x.txns && x.txns[t].phase == Locking([])
    ensures LinksNameAccounts(x.db) && !StillLinked(x.db, x.txns[t].what)
    ensures CanDecide(x, t) && !GuardAccepts(x.db, x.txns[t].what)
    ensures Committed(x.db, x.txns[t].what) == x.db
  {
    var one: map<TxnId, Open> := map[1 := Unlinking(Locking([]))];
    x, t := System(LateOwnerTables(), one, map[]), 1;
    LateOwnerReached(one);
    LateOwnerIsRefused();
    DecideIsEnabled(x, t);
  }

  /** Account 1 is a plain member of organization 5 and can log in. */
  const MEMBER_ONLY := EMPTY.(
    accounts := map[1 := Account(Some(1), Some(1), None)], organizations := {5}, memberships := map[(5, 1) := Member])

  const PROMOTION := OfMembership(Promote(
    Membership(5, 1, Owner), MembershipEvent(1, 5, 1, 1, Some(Member), Some(Owner), 0)))

  const DISABLING := Disable(1, Account(Some(1), None, Some(0)))

  lemma DisablingDecides()
    ensures Reachable(System(MEMBER_ONLY, map[1 := Open(DISABLING, Decided, {})], map[]))
  {
    var x := System(MEMBER_ONLY, map[], map[]);
    var y := System(MEMBER_ONLY, map[1 := Open(DISABLING, Locking([]), {})], map[]);
    var z := System(MEMBER_ONLY, map[1 := Open(DISABLING, Decided, {})], map[]);
    assert forall row :: !InLockSet(MEMBER_ONLY, DISABLING, row);
    ReachesStart(x);
    assert Begin(x, y, 1, DISABLING, []);
    ReachesOn(x, y);
    assert Decide(y, z, 1);
    ReachesOn(y, z);
  }

  /**
   * Why no owner row may be added under an open reduction: a disablement that planned its locks before
   * its account was promoted commits against an organization it never judged, and leaves it with none.
   */
  lemma LateOwnerRowCanStrand() returns (x: System, y: System, t: TxnId, org: OrgId)
    ensures Reachable(x) && Commit(x, y, t) && HasEffectiveOwner(x.db, org) && !HasEffectiveOwner(y.db, org)
    ensures x.db == Apply(MEMBER_ONLY, PROMOTION)
  {
    DisablingDecides();
    var before := System(MEMBER_ONLY, map[1 := Open(DISABLING, Decided, {})], map[]);
    var promoted := Apply(MEMBER_ONLY, PROMOTION);
    x, t, org := before.(db := promoted), 1, 5;
    y := System(Committed(promoted, DISABLING), x.txns - {1}, Released(x.locks, 1));
    assert promoted.memberships == map[(5, 1) := Owner] && promoted.accounts == MEMBER_ONLY.accounts;
    assert Elsewhere(before, x);
    ReachesOn(before, x);
    assert EffectiveOwner(promoted, 5, 1);
    assert TakesLast(promoted, DISABLING, 5);
    CommitStrandsExactlyWhen(promoted, DISABLING, 5);
  }
}
