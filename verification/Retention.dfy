/** The retention horizons of the calendar applied to the identity tables. */
module Retention {
  import opened Records
  import opened IdentityState
  import opened IdentityHistory
  import opened IdentityTheorems
  import opened Calendar
  import Collections

  /** The instant whose calendar lies this many whole months before `now`. */
  function HorizonAt(now: Date, months: nat): Moment
    requires now.Valid() && MonthsBefore(now, months).Some?
  {
    InstantOf(MonthsBefore(now, months).value)
  }

  /** What the account sweep asks of an account at `now`. */
  predicate DueOn(s: Store, id: AccountId, now: Date)
    requires now.Valid()
  {
    && MonthsBefore(now, RETENTION_MONTHS).Some?
    && id in s.accounts && s.accounts[id].IsPurgeableAt(HorizonAt(now, RETENTION_MONTHS))
  }

  /** The store's comparison of instants is the calendar's rule of eligibility. */
  lemma DueExactlyWhenEligible(s: Store, id: AccountId, since: Date, now: Date)
    requires since.Valid() && now.Valid() && id in s.accounts && !s.accounts[id].IsPurged()
    requires s.accounts[id].disabledAt == Some(InstantOf(since))
    ensures DueOn(s, id, now) <==> Eligible(since, now, 24)
  {
    if MonthsBefore(now, RETENTION_MONTHS).Some? {
      InstantsFollowDates(since, MonthsBefore(now, RETENTION_MONTHS).value);
    }
  }

  /**
   * As time advances over a run: an account due at `now`, whose writes meanwhile neither re-enable it,
   * re-date it past the horizon nor purge it, is due at any later date exactly unless that date is a leap
   * day two years after its last-of-February disablement and not yet at that disablement's hour.
   */
  lemma EligibilityOverTime(
    h: seq<Store>, ts: seq<Txn>, i: nat, j: nat, id: AccountId, since: Date, now: Date, later: Date)
    requires Run(h, ts) && i <= j < |h| && since.Valid() && now.Valid() && later.Valid() && NotAfter(now, later)
    requires DueOn(h[i], id, now)
    requires forall k: nat :: i <= k < j ==> !EndsAt(h, ts, k, id, HorizonAt(now, RETENTION_MONTHS))
    requires id in h[j].accounts ==> h[j].accounts[id].disabledAt == Some(InstantOf(since))
    ensures DueOn(h[j], id, now) && (DueOn(h[j], id, later) <==> !WithinTheLeapDay(since, later))
  {
    var horizon := HorizonAt(now, RETENTION_MONTHS);
    assert DueAt(h, i, id, horizon);
    EligibilityPersistsExactlyWhen(h, ts, i, j, id, horizon);
    assert DueAt(h, j, id, horizon);
    DueExactlyWhenEligible(h[j], id, since, now);
    DueExactlyWhenEligible(h[j], id, since, later);
    EligibilityLapsesExactlyOnLeapDays(since, now, later);
  }

  /**
   * The two retention periods in their order: when an account is due, its audit events up to its
   * disablement are past their own horizon, so a sweep at the same moment leaves none of them.
   */
  lemma EventsNeverOutliveTheirAccount(s: Store, id: AccountId, now: Date, event: MembershipEvent)
    requires now.Valid() && DueOn(s, id, now)
    requires event.account == id && event.occurredAt <= s.accounts[id].disabledAt.value
    ensures MonthsBefore(now, 12).Some? && event !in EventsKept(s.events, HorizonAt(now, 12))
  {
    LongerHorizonsAreEarlier(now, RETENTION_MONTHS, MEMBERSHIP_EVENT_RETENTION_MONTHS);
    InstantsFollowDates(
      MonthsBefore(now, MEMBERSHIP_EVENT_RETENTION_MONTHS).value, MonthsBefore(now, RETENTION_MONTHS).value);
    KeptEventsAreYoung(s.events, HorizonAt(now, MEMBERSHIP_EVENT_RETENTION_MONTHS));
  }

  lemma {:induction false} KeptEventsAreYoung(events: seq<MembershipEvent>, horizon: Moment)
    ensures forall event :: event in EventsKept(events, horizon) <==> event in events && event.occurredAt > horizon
  {
    if events == [] {
    } else {
      KeptEventsAreYoung(events[1..], horizon);
      assert events == [events[0]] + events[1..];
    }
  }

  // ----- what the retained events are ----------------------------------------------------------

  /** Log entry `n` was there when a sweep whose horizon covers it ran, among the first `i` transactions. */
  ghost predicate SweptBy(h: seq<Store>, ts: seq<Txn>, i: nat, n: nat)
    requires |h| == |ts| + 1 && i < |h| && n < |h[i].log|
  {
    exists k: nat :: SweptAt(h, ts, i, n, k)
  }

  ghost predicate SweptAt(h: seq<Store>, ts: seq<Txn>, i: nat, n: nat, k: nat)
    requires |h| == |ts| + 1 && i < |h| && n < |h[i].log|
  {
    && k < i && ts[k].OfMembership? && ts[k].m.PurgeEvents? && n < |h[k].log|
    && h[i].log[n].event.occurredAt <= ts[k].m.horizon
  }

  ghost function Gone(h: seq<Store>, ts: seq<Txn>, i: nat): set<nat>
    requires |h| == |ts| + 1 && i < |h|
  {
    set n: nat | n < |h[i].log| && SweptBy(h, ts, i, n)
  }

  /** The log without some of its entries, in its order. */
  ghost function Survivors(log: seq<LogEntry>, gone: set<nat>): seq<MembershipEvent> {
    if log == [] then []
    else Survivors(log[..|log| - 1], gone) + if |log| - 1 in gone then [] else [log[|log| - 1].event]
  }

  lemma {:induction false} SurvivorsAgree(log: seq<LogEntry>, x: set<nat>, y: set<nat>)
    requires forall n: nat :: n < |log| ==> (n in x <==> n in y)
    ensures Survivors(log, x) == Survivors(log, y)
  {
    if log == [] {
    } else {
      SurvivorsAgree(log[..|log| - 1], x, y);
    }
  }

  function OneKept(event: MembershipEvent, horizon: Moment): seq<MembershipEvent> {
    if event.occurredAt <= horizon then [] else [event]
  }

  lemma EventsKeptFirst(event: MembershipEvent, rest: seq<MembershipEvent>, horizon: Moment)
    ensures EventsKept([event] + rest, horizon) == OneKept(event, horizon) + EventsKept(rest, horizon)
  {
    assert ([event] + rest)[1..] == rest;
  }

  lemma KeptInThree(x: seq<MembershipEvent>, y: seq<MembershipEvent>, z: seq<MembershipEvent>)
    ensures x + (y + z) == (x + y) + z
  {
  }

  lemma {:induction false} EventsKeptConcat(a: seq<MembershipEvent>, b: seq<MembershipEvent>, horizon: Moment)
    ensures EventsKept(a + b, horizon) == EventsKept(a, horizon) + EventsKept(b, horizon)
  {
    if a == [] {
      assert a + b == b;
    } else {
      var first, rest := a[0], a[1..];
      EventsKeptConcat(rest, b, horizon);
      EventsKeptFirst(first, rest + b, horizon);
      EventsKeptFirst(first, rest, horizon);
      Collections.FirstOfConcat(a, b);
      Collections.FirstOfConcat(a, []);
      KeptInThree(OneKept(first, horizon), EventsKept(rest, horizon), EventsKept(b, horizon));
    }
  }

  /** The entries a sweep covers. */
  ghost function Covered(log: seq<LogEntry>, horizon: Moment): set<nat> {
    set n: nat | n < |log| && log[n].event.occurredAt <= horizon
  }

  lemma {:induction false} SweepingSurvivors(log: seq<LogEntry>, gone: set<nat>, horizon: Moment)
    ensures EventsKept(Survivors(log, gone), horizon) == Survivors(log, gone + Covered(log, horizon))
  {
    if log == [] {
    } else {
      var front, last := log[..|log| - 1], log[|log| - 1];
      SweepingSurvivors(front, gone, horizon);
      SurvivorsAgree(front, gone + Covered(front, horizon), gone + Covered(log, horizon));
      var tail := if |log| - 1 in gone then [] else [last.event];
      EventsKeptConcat(Survivors(front, gone), tail, horizon);
      assert EventsKept(tail, horizon) == if |log| - 1 in gone + Covered(log, horizon) then [] else [last.event];
    }
  }

  /** A transaction appends one event to table and log alike, or sweeps the table, or touches neither. */
  lemma EventsStep(s: Store, t: Txn)
    ensures var s' := Apply(s, t);
            || (s'.events == s.events && s'.log == s.log)
            || (exists event, via :: s'.events == s.events + [event] && s'.log == s.log + [LogEntry(event, via)])
            || (t.OfMembership? && t.m.PurgeEvents? && s'.events == EventsKept(s.events, t.m.horizon) && s'.log == s.log)
  {
    if t.OfMembership? && MembershipLands(s, t.m) {
      MembershipEventsStep(s, t.m);
    } else {
      OnlyMembershipsRecord(s, t);
    }
  }

  lemma OnlyMembershipsRecord(s: Store, t: Txn)
    requires !t.OfMembership? || !MembershipLands(s, t.m)
    ensures Apply(s, t).events == s.events && Apply(s, t).log == s.log
  {
    if t.OfAccount? && AccountLands(s, t.a) {
      AccountsRecordNothing(s, t.a);
    }
  }

  lemma AccountsRecordNothing(s: Store, t: AccountTxn)
    requires AccountLands(s, t)
    ensures AccountTxnWritten(s, t).events == s.events && AccountTxnWritten(s, t).log == s.log
  {
  }

  lemma MembershipEventsStep(s: Store, t: MembershipTxn)
    requires MembershipLands(s, t)
    ensures var s' := MembershipTxnWritten(s, t);
            || (exists event, via :: s'.events == s.events + [event] && s'.log == s.log + [LogEntry(event, via)])
            || (t.PurgeEvents? && s'.events == EventsKept(s.events, t.horizon) && s'.log == s.log)
  {
    if !t.PurgeEvents? {
      var entry := MembershipTxnWritten(s, t).log[|s.log|];
      assert MembershipTxnWritten(s, t) == Recorded(
        MembershipTxnWritten(s, t).(events := s.events, log := s.log), entry.event, entry.via);
    }
  }

  /** A step sweeps what it covers and nothing else. */
  lemma SweptStays(h: seq<Store>, ts: seq<Txn>, i: nat, n: nat)
    requires |h| == |ts| + 1 && i < |ts| && n < |h[i].log| && h[i].log <= h[i + 1].log
    ensures SweptBy(h, ts, i + 1, n) <==> SweptBy(h, ts, i, n) || SweptAt(h, ts, i + 1, n, i)
  {
    var next := i + 1;
    if k: nat :| SweptAt(h, ts, next, n, k) {
      if k < i {
        assert SweptAt(h, ts, i, n, k);
      }
    }
    if k: nat :| SweptAt(h, ts, i, n, k) {
      assert SweptAt(h, ts, next, n, k);
    }
  }

  /** An entry the step itself wrote is not swept yet. */
  lemma NewIsNotSwept(h: seq<Store>, ts: seq<Txn>, i: nat, n: nat)
    requires |h| == |ts| + 1 && i < |ts| && |h[i].log| <= n < |h[i + 1].log|
    requires forall k: nat :: k <= i ==> |h[k].log| <= |h[i].log|
    ensures !SweptBy(h, ts, i + 1, n)
  {
  }

  lemma GoneStays(h: seq<Store>, ts: seq<Txn>, i: nat)
    requires |h| == |ts| + 1 && i < |ts| && h[i].log <= h[i + 1].log
    requires !(ts[i].OfMembership? && ts[i].m.PurgeEvents?)
    requires forall k: nat :: k <= i ==> |h[k].log| <= |h[i].log|
    ensures Gone(h, ts, i + 1) == Gone(h, ts, i)
  {
    forall n: nat | n < |h[i + 1].log| ensures n in Gone(h, ts, i + 1) <==> n in Gone(h, ts, i) {
      if n < |h[i].log| {
        SweptStays(h, ts, i, n);
      } else {
        NewIsNotSwept(h, ts, i, n);
      }
    }
  }

  lemma GoneGrows(h: seq<Store>, ts: seq<Txn>, i: nat)
    requires |h| == |ts| + 1 && i < |ts| && h[i].log == h[i + 1].log
    requires ts[i].OfMembership? && ts[i].m.PurgeEvents?
    ensures Gone(h, ts, i + 1) == Gone(h, ts, i) + Covered(h[i].log, ts[i].m.horizon)
  {
    forall n: nat | n < |h[i].log|
      ensures n in Gone(h, ts, i + 1) <==> n in Gone(h, ts, i) + Covered(h[i].log, ts[i].m.horizon)
    {
      SweptStays(h, ts, i, n);
    }
  }

  lemma LogsOnlyGrow(h: seq<Store>, ts: seq<Txn>, i: nat)
    requires Run(h, ts) && i < |h|
    ensures forall k: nat :: k <= i ==> |h[k].log| <= |h[i].log|
  {
    forall k: nat | k <= i ensures |h[k].log| <= |h[i].log| {
      LogOnlyGrows(h, ts, k, i);
    }
  }

  lemma SurvivorsStep(h: seq<Store>, ts: seq<Txn>, i: nat)
    requires Run(h, ts) && i < |ts| && h[i].events == Survivors(h[i].log, Gone(h, ts, i))
    ensures h[i + 1].events == Survivors(h[i + 1].log, Gone(h, ts, i + 1))
  {
    assert StepAt(h, ts, i);
    EventsStep(h[i], ts[i]);
    if ts[i].OfMembership? && ts[i].m.PurgeEvents? {
      SweptStep(h, ts, i);
    } else {
      LogsOnlyGrow(h, ts, i);
      LogOnlyGrows(h, ts, i, i + 1);
      GoneStays(h, ts, i);
      NewestSurvives(h, ts, i);
      assert h[i + 1].log != h[i].log ==> h[i + 1].log[..|h[i + 1].log| - 1] == h[i].log;
    }
  }

  lemma NewestSurvives(h: seq<Store>, ts: seq<Txn>, i: nat)
    requires |h| == |ts| + 1 && i < |h|
    ensures forall n: nat :: n in Gone(h, ts, i) ==> n < |h[i].log|
  {
  }

  lemma SweptStep(h: seq<Store>, ts: seq<Txn>, i: nat)
    requires Run(h, ts) && i < |ts| && h[i].events == Survivors(h[i].log, Gone(h, ts, i))
    requires ts[i].OfMembership? && ts[i].m.PurgeEvents?
    ensures h[i + 1].events == Survivors(h[i + 1].log, Gone(h, ts, i + 1))
  {
    assert StepAt(h, ts, i);
    assert h[i + 1].log == h[i].log && h[i + 1].events == EventsKept(h[i].events, ts[i].m.horizon);
    GoneGrows(h, ts, i);
    SweepingSurvivors(h[i].log, Gone(h, ts, i), ts[i].m.horizon);
  }

  /**
   * Over every run the event table is the full log with exactly the entries taken out that were already
   * there when a sweep reached past them.
   */
  lemma {:induction false} EventsAreTheUnsweptLog(h: seq<Store>, ts: seq<Txn>, i: nat)
    requires Run(h, ts) && i < |h|
    ensures h[i].events == Survivors(h[i].log, Gone(h, ts, i))
  {
    if i == 0 {
    } else {
      EventsAreTheUnsweptLog(h, ts, i - 1);
      SurvivorsStep(h, ts, i - 1);
    }
  }

  // ----- what folding the retained events means ------------------------------------------------

  /** Events read as a log, for the one fold of both. */
  function AsLog(events: seq<MembershipEvent>): (log: seq<LogEntry>)
    ensures |log| == |events|
  {
    seq(|events|, i requires 0 <= i < |events| => LogEntry(events[i], None))
  }

  lemma OneEventMore(events: seq<MembershipEvent>, event: MembershipEvent)
    ensures AsLog(events + [event]) == AsLog(events) + [LogEntry(event, None)]
    ensures (AsLog(events) + [LogEntry(event, None)])[..|events|] == AsLog(events)
  {
  }

  ghost predicate About(entry: LogEntry, org: OrgId, account: AccountId) {
    entry.event.organization == org && entry.event.account == account
  }

  /** The last entry about a membership, among those not gone. */
  ghost function LastAbout(log: seq<LogEntry>, gone: set<nat>, org: OrgId, account: AccountId): (n: Option<nat>)
    ensures n.Some? ==> n.value < |log| && About(log[n.value], org, account) && n.value !in gone
    ensures forall k: nat :: (n.None? || n.value < k) && k < |log| && About(log[k], org, account) ==> k in gone
  {
    if log == [] then None
    else if |log| - 1 !in gone && About(log[|log| - 1], org, account) then Some(|log| - 1)
    else
      var n := LastAbout(log[..|log| - 1], gone, org, account);
      assert forall k: nat :: k < |log| - 1 ==> log[k] == log[..|log| - 1][k];
      n
  }

  lemma {:induction false} SurvivorsTell(log: seq<LogEntry>, gone: set<nat>, org: OrgId, account: AccountId)
    ensures RoleAfter(AsLog(Survivors(log, gone)), org, account) ==
      match LastAbout(log, gone, org, account) case None => None case Some(n) => log[n].event.nextRole
  {
    if log == [] {
    } else {
      SurvivorsTell(log[..|log| - 1], gone, org, account);
      var front := Survivors(log[..|log| - 1], gone);
      if |log| - 1 !in gone {
        OneEventMore(front, log[|log| - 1].event);
      } else {
        assert front + [] == front;
      }
    }
  }

  lemma {:induction false} WholeLogTells(log: seq<LogEntry>, org: OrgId, account: AccountId)
    ensures RoleAfter(log, org, account) ==
      match LastAbout(log, {}, org, account) case None => None case Some(n) => log[n].event.nextRole
  {
    if log == [] {
    } else {
      WholeLogTells(log[..|log| - 1], org, account);
    }
  }

  /**
   * Folding the retained events gives the role of the last event about that membership that no sweep has
   * taken. So it is the current role whenever the last one of all is still there, or there never was one.
   */
  lemma RetainedEventsTellTheRole(h: seq<Store>, ts: seq<Txn>, i: nat, org: OrgId, account: AccountId)
    requires Run(h, ts) && i < |h|
    ensures var last := LastAbout(h[i].log, Gone(h, ts, i), org, account);
            RoleAfter(AsLog(h[i].events), org, account)
              == if last.None? then None else h[i].log[last.value].event.nextRole
    ensures LastAbout(h[i].log, Gone(h, ts, i), org, account) == LastAbout(h[i].log, {}, org, account) ==>
              RoleAfter(AsLog(h[i].events), org, account) == RoleNow(h[i], org, account)
  {
    EventsAreTheUnsweptLog(h, ts, i);
    SurvivorsTell(h[i].log, Gone(h, ts, i), org, account);
    WholeLogTells(h[i].log, org, account);
    RunOrdered(h, ts, i, i);
  }
}
