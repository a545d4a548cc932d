/**
 * Exactly where the publication protocol's promises stop: an instant sampled before the committing
 * transaction opens, and a commit that lands after its attempt was told there was none.
 */
module PublicationLimits {
  import opened Records
  import opened Publication
  import opened PublicationTheorems

  // ----- the sampled instant -------------------------------------------------------------------

  /** The clock passes this instant at step `k`. */
  predicate Passes(ws: seq<World>, k: nat, instant: Moment)
    requires k + 1 < |ws|
  {
    ws[k].clock < instant <= ws[k + 1].clock
  }

  /** An instant still to come is still to come exactly when no step has passed it. */
  lemma {:induction false} StillToComeExactlyWhen(ws: seq<World>, m: nat, n: nat, instant: Moment)
    requires Trace(ws) && m <= n < |ws| && ws[m].clock < instant
    ensures ws[n].clock < instant <==> !exists k :: m <= k < n && Passes(ws, k, instant)
    decreases n
  {
    if m == n {
    } else {
      StillToComeExactlyWhen(ws, m, n - 1, instant);
      ClockStep(ws, n - 1);
      if ws[n - 1].clock < instant <= ws[n].clock {
        assert Passes(ws, n - 1, instant);
      }
    }
  }

  /** The instant an attempt commits under, held by the attempt or by its transaction in flight. */
  ghost predicate Sampled(w: World, job: JobId, id: AttemptId, at: Moment) {
    || (id in w.attempts && w.attempts[id].phase == Timed(at))
    || (job in w.pending && w.pending[job] == InFlight(id, at))
  }

  lemma SampledBefore(ws: seq<World>, i: nat, job: JobId, id: AttemptId, at: Moment)
    requires Trace(ws) && i + 1 < |ws| && Sampled(ws[i + 1], job, id, at)
    ensures Sampled(ws[i], job, id, at) || (ReadClock(ws[i], ws[i + 1], id) && ws[i].clock == at)
  {
    RunsOnward(ws, i);
    assert StepAt(ws, i);
    if id in ws[i + 1].attempts && ws[i + 1].attempts[id].phase == Timed(at) {
      if id in ws[i].attempts {
        BecomesTimed(ws[i], ws[i + 1], id);
      } else {
        AppearsByStarting(ws[i], ws[i + 1], id);
      }
    }
  }

  /** Every sampled instant was read off the clock by one earlier step of that attempt. */
  lemma {:induction false} SampledSince(ws: seq<World>, n: nat, job: JobId, id: AttemptId, at: Moment) returns (m: nat)
    requires Trace(ws) && n < |ws| && Sampled(ws[n], job, id, at)
    ensures m < n && ReadClock(ws[m], ws[m + 1], id) && ws[m].clock == at
    decreases n
  {
    assert n > 0;
    SampledBefore(ws, n - 1, job, id, at);
    if Sampled(ws[n - 1], job, id, at) {
      m := SampledSince(ws, n - 1, job, id, at);
    } else {
      m := n - 1;
    }
  }

  /**
   * A commit lands inside its lease exactly when the clock did not pass the lease's expiry between the
   * step that sampled the commit instant and the landing: that is when its checks, taken again at the
   * landing's own instant, would still pass. So it always does if the clock stood still in between.
   */
  lemma LandsInsideItsLeaseExactlyWhen(ws: seq<World>, n: nat, job: JobId) returns (id: AttemptId, m: nat)
    requires Trace(ws) && LandsAt(ws, n, job)
    ensures CommittedBy(ws[n + 1], job, id) && id in ws[n].attempts && m < n && ReadClock(ws[m], ws[m + 1], id)
    ensures job in ws[n].jobs && ws[n].jobs[job].leaseExpiresAt.Some?
    ensures var expiry := ws[n].jobs[job].leaseExpiresAt.value;
            && ws[m].clock < expiry
            && (ws[n].clock < expiry <==> !exists k :: m <= k < n && Passes(ws, k, expiry))
            && (MayCommit(ws[n], ws[n].attempts[id], ws[n].clock) <==> ws[n].clock < expiry)
            && (ws[m].clock == ws[n].clock ==> MayCommit(ws[n], ws[n].attempts[id], ws[n].clock))
  {
    var at;
    id, at := OnlyTheLeaseHolderCommits(ws, n, job);
    LandingWasTimedOrInFlight(ws[n], ws[n + 1], job, id, at);
    m := SampledSince(ws, n, job, id, at);
    StillToComeExactlyWhen(ws, m, n, ws[n].jobs[job].leaseExpiresAt.value);
  }

  /** Every attempt was begun by one earlier step. */
  lemma {:induction false} StartedAt(ws: seq<World>, n: nat, id: AttemptId) returns (m: nat)
    requires Trace(ws) && n < |ws| && id in ws[n].attempts
    ensures m < n && id in ws[m + 1].attempts && Start(ws[m], ws[m + 1], id, ws[m + 1].attempts[id])
    decreases n
  {
    assert n > 0;
    if id in ws[n - 1].attempts {
      m := StartedAt(ws, n - 1, id);
    } else {
      m := n - 1;
      TraceIsSound(ws, m);
      assert StepAt(ws, m);
      AppearsByStarting(ws[m], ws[m + 1], id);
    }
  }

  /**
   * The content's expiry is judged at the attempt's first instant, and never again: it lands over
   * unexpired content exactly when that content was unexpired as its boundary was resolved and the clock
   * did not pass the expiry since.
   */
  lemma LandsOverUnexpiredContentExactlyWhen(ws: seq<World>, n: nat, job: JobId) returns (id: AttemptId, m: nat)
    requires Trace(ws) && LandsAt(ws, n, job)
    ensures CommittedBy(ws[n + 1], job, id) && id in ws[n].attempts && m < n
    ensures id in ws[m + 1].attempts && Start(ws[m], ws[m + 1], id, ws[m + 1].attempts[id])
    ensures Leased(ws[n], job, ws[n].attempts[id].boundary)
    ensures var expiry := ws[n].attempts[id].boundary.expiresAt;
            && ws[n].attempts[id].createdAt <= ws[m].clock && ws[n].attempts[id].createdAt < expiry
            && (ws[n].clock < expiry <==>
                  ws[m].clock < expiry && !exists k :: m <= k < n && Passes(ws, k, expiry))
  {
    var at;
    id, at := OnlyTheLeaseHolderCommits(ws, n, job);
    m := StartedAt(ws, n, id);
    AttemptsEndureAlong(ws, m + 1, n, id);
    ClockAdvances(ws, m, n);
    if ws[m].clock < ws[n].attempts[id].boundary.expiresAt {
      StillToComeExactlyWhen(ws, m, n, ws[n].attempts[id].boundary.expiresAt);
    }
  }

  // ----- one attempt, call by call -------------------------------------------------------------

  const BLANK := Attempt(1, 1, [0, 0, 0, 0, 0, 0, 0], Boundary(1, 1, 100, 1, 1), 0, [], [], Storing, {})

  function FirstKeys(n: nat): (keys: set<ObjectKey>) {
    if n == 0 then {} else FirstKeys(n - 1) + {KeyFor(1, BLANK, n - 1)}
  }

  function Recorded(n: nat): (keys: seq<ObjectKey>)
    ensures |keys| == n
  {
    if n == 0 then [] else Recorded(n - 1) + [KeyFor(1, BLANK, n - 1)]
  }

  function Described(n: nat): (artifacts: seq<Artifact>)
    requires n <= KINDS
    ensures |artifacts| == n
  {
    if n == 0 then [] else Described(n - 1) + [StoredArtifact(1, BLANK, n - 1)]
  }

  /** One attempt after `n` of its objects are stored, in a world where its lease runs out at 5. */
  function Filling(n: nat): (w: World)
    requires n <= KINDS
    ensures 1 in w.attempts && w.rows == map[] && w.pending == map[]
  {
    var attempt := BLANK.(artifacts := Described(n), created := Recorded(n));
    World(
      0, map[1 := Job(true, Some(1), Some(5), 1, 1, 1)], map[1 := Content(Some(100), true)], map[], map[],
      FirstKeys(n), map[1 := attempt], map[])
  }

  /** Keys are told apart by their kind. */
  lemma {:induction false} NextIsNew(n: nat)
    ensures forall key :: key in FirstKeys(n) ==> key.kind < n
  {
    if n == 0 {
    } else {
      NextIsNew(n - 1);
    }
  }

  lemma FillingStoresTheNext(n: nat)
    requires n < KINDS
    ensures AttemptStep(Filling(n), Filling(n + 1), 1)
  {
    var w, w' := Filling(n), Filling(n + 1);
    var attempt := w.attempts[1];
    NextIsNew(n);
    assert KeyFor(1, attempt, n) == KeyFor(1, BLANK, n);
    assert w'.attempts[1].artifacts == attempt.artifacts + [StoredArtifact(1, attempt, n)];
    assert w'.attempts[1].created == attempt.created + [KeyFor(1, attempt, n)];
    assert Put(w, w', 1);
  }

  /** Every object stored and the clock read. */
  function Sampling(): (w: World)
    ensures 1 in w.attempts && w.rows == map[] && w.pending == map[]
  {
    Entering(Filling(KINDS), 1, Timed(0))
  }

  /** The first steps of both runs below: start, seven puts, one clock read. */
  function Opening(i: nat): World
    requires i <= KINDS + 2
  {
    if i == 0 then Filling(0).(attempts := map[])
    else if i <= KINDS + 1 then Filling(i - 1) else Sampling()
  }

  lemma OpeningSteps(i: nat)
    requires i < KINDS + 2
    ensures Step(Opening(i), Opening(i + 1))
  {
    var w, w' := Opening(i), Opening(i + 1);
    if i == 0 {
      assert Start(w, w', 1, w'.attempts[1]);
    } else if i <= KINDS {
      FillingStoresTheNext(i - 1);
    } else {
      assert ReadClock(w, w', 1);
      assert AttemptStep(w, w', 1);
    }
  }

  // ----- a lease that ran out ------------------------------------------------------------------

  function LateRun(i: nat): World
    requires i <= KINDS + 4
  {
    if i <= KINDS + 2 then Opening(i)
    else if i == KINDS + 3 then Sampling().(clock := 9)
    else Entering(Committed(Sampling().(clock := 9), Sampling().attempts[1]), 1, Published)
  }

  lemma LateRunSteps(i: nat)
    requires i < KINDS + 4
    ensures Step(LateRun(i), LateRun(i + 1))
  {
    var w, w' := LateRun(i), LateRun(i + 1);
    if i < KINDS + 2 {
      OpeningSteps(i);
    } else if i == KINDS + 2 {
      assert Elsewhere(w, w');
    } else {
      assert Commit(w, w', 1);
      assert AttemptStep(w, w', 1);
    }
  }

  /**
   * The lease is judged at the instant read before the committing transaction opens, so a commit can
   * land after its lease has run out, provided nobody claimed the job in between.
   */
  lemma ExpiredLeaseCanStillCommit() returns (ws: seq<World>, n: nat, job: JobId)
    ensures Trace(ws) && LandsAt(ws, n, job) && job in ws[n].jobs
    ensures ws[n].jobs[job].leaseExpiresAt.Some? && ws[n].jobs[job].leaseExpiresAt.value < ws[n].clock
  {
    ws := seq(KINDS + 5, k requires 0 <= k < KINDS + 5 => LateRun(k));
    forall k: nat | k + 1 < |ws| ensures StepAt(ws, k) {
      LateRunSteps(k);
    }
    n, job := KINDS + 3, 1;
  }

  // ----- a commit that lands after its rollback ------------------------------------------------

  /** The commit's transaction is in flight and its caller knows only that the call raised. */
  function Flying(): (w: World)
    ensures 1 in w.attempts && w.rows == map[]
  {
    Entering(Sampling().(pending := map[1 := InFlight(1, 0)]), 1, Unsure)
  }

  /** Told "not committed", the attempt has deleted all but the first `left` of its objects. */
  function EmptyingFrom(w: World, left: nat): (w': World)
    requires 1 in w.attempts
    ensures 1 in w'.attempts && w'.rows == w.rows
  {
    w.(objects := FirstKeys(left),
       attempts := map[1 := w.attempts[1].(phase := RollingBack(Reversed(Recorded(left))),
                                           withdrawn := FirstKeys(KINDS) - FirstKeys(left))])
  }

  function Emptying(left: nat): (w: World)
    ensures 1 in w.attempts && w.rows == map[]
  {
    EmptyingFrom(Flying(), left)
  }

  lemma NextToDelete(left: nat)
    requires left < KINDS
    ensures var key := KeyFor(1, BLANK, left);
            && Reversed(Recorded(left + 1)) == [key] + Reversed(Recorded(left))
            && FirstKeys(left) == FirstKeys(left + 1) - {key}
            && FirstKeys(KINDS) - FirstKeys(left) == FirstKeys(KINDS) - FirstKeys(left + 1) + {key}
  {
    NextIsNew(left);
    KeysStay(left + 1, KINDS);
    LastComesFirst(Recorded(left), KeyFor(1, BLANK, left));
  }

  lemma EmptyingWithdraws(w: World, left: nat)
    requires 1 in w.attempts && left < KINDS
    ensures EmptyingFrom(w, left)
      == Withdrawing(EmptyingFrom(w, left + 1), 1, KeyFor(1, BLANK, left), RollingBack(Reversed(Recorded(left))))
  {
    NextToDelete(left);
  }

  lemma DeletesTheNext(w: World, left: nat)
    requires 1 in w.attempts && left < KINDS
    ensures AttemptStep(EmptyingFrom(w, left + 1), EmptyingFrom(w, left), 1)
  {
    EmptyingWithdraws(w, left);
    NextToDelete(left);
    var keys := Reversed(Recorded(left + 1));
    assert keys[0] == KeyFor(1, BLANK, left) && keys[1..] == Reversed(Recorded(left));
    assert Delete(EmptyingFrom(w, left + 1), EmptyingFrom(w, left), 1);
  }

  lemma EmptyingDeletesTheNext(left: nat)
    requires left < KINDS
    ensures AttemptStep(Emptying(left + 1), Emptying(left), 1)
  {
    DeletesTheNext(Flying(), left);
  }

  lemma OnlyAttemptRollsBack(w: World, attempt: Attempt, none: set<ObjectKey>)
    requires w.attempts == map[1 := attempt] && attempt.withdrawn == none
    ensures BeginRollback(w, 1) ==
      w.(attempts := map[1 := attempt.(phase := RollingBack(Reversed(attempt.created)), withdrawn := none)])
  {
  }

  lemma DeniedWhileFlying()
    ensures Emptying(KINDS) == BeginRollback(Flying(), 1)
  {
    OnlyAttemptRollsBack(Flying(), Flying().attempts[1], FirstKeys(KINDS) - FirstKeys(KINDS));
  }

  lemma EmptyingBegins()
    ensures AttemptStep(Flying(), Emptying(KINDS), 1)
  {
    DeniedWhileFlying();
    var w, w' := Flying(), Emptying(KINDS);
    assert w.attempts[1].phase == Unsure && w.attempts[1].job !in w.rows;
    assert Reconcile(w, w', 1);
  }

  lemma {:induction false} KeysStay(m: nat, n: nat)
    requires m <= n
    ensures FirstKeys(m) <= FirstKeys(n)
    decreases n
  {
    if m == n {
    } else {
      KeysStay(m, n - 1);
    }
  }

  lemma {:induction false} LastComesFirst(keys: seq<ObjectKey>, key: ObjectKey)
    ensures Reversed(keys + [key]) == [key] + Reversed(keys)
  {
  }

  function DanglingRun(i: nat): World
    requires i <= 2 * KINDS + 6
  {
    if i <= KINDS + 2 then Opening(i)
    else if i == KINDS + 3 then Flying()
    else if i <= 2 * KINDS + 4 then Emptying(2 * KINDS + 4 - i)
    else
      var failed := Entering(Emptying(0), 1, Failed(true));
      if i == 2 * KINDS + 5 then failed else Committed(failed, failed.attempts[1]).(pending := map[])
  }

  lemma FlyingBegins()
    ensures AttemptStep(Sampling(), Flying(), 1)
  {
    assert Commit(Sampling(), Flying(), 1);
  }

  lemma EmptyingEnds()
    ensures AttemptStep(Emptying(0), Entering(Emptying(0), 1, Failed(true)), 1)
  {
    assert Emptying(0).attempts[1].phase == RollingBack([]);
    assert Delete(Emptying(0), Entering(Emptying(0), 1, Failed(true)), 1);
  }

  lemma DanglingCalls(i: nat)
    requires KINDS + 2 <= i <= 2 * KINDS + 4
    ensures AttemptStep(DanglingRun(i), DanglingRun(i + 1), 1)
  {
    if i == KINDS + 2 {
      FlyingBegins();
    } else if i == KINDS + 3 {
      EmptyingBegins();
    } else if i < 2 * KINDS + 4 {
      EmptyingDeletesTheNext(2 * KINDS + 3 - i);
    } else {
      EmptyingEnds();
    }
  }

  lemma DanglingLands()
    ensures Land(DanglingRun(2 * KINDS + 5), DanglingRun(2 * KINDS + 6), 1)
  {
  }

  lemma DanglingRunSteps(i: nat)
    requires i < 2 * KINDS + 6
    ensures Step(DanglingRun(i), DanglingRun(i + 1))
  {
    if i < KINDS + 2 {
      OpeningSteps(i);
    } else if i <= 2 * KINDS + 4 {
      DanglingCalls(i);
    } else {
      DanglingLands();
    }
  }

  lemma DanglingRunIsTrace() returns (ws: seq<World>)
    ensures |ws| == 2 * KINDS + 7 && Trace(ws) && forall k :: 0 <= k < |ws| ==> ws[k] == DanglingRun(k)
  {
    ws := seq(2 * KINDS + 7, k requires 0 <= k < 2 * KINDS + 7 => DanglingRun(k));
    forall k: nat | k + 1 < |ws| ensures StepAt(ws, k) {
      DanglingRunSteps(k);
    }
  }

  /** How it ends: failed and clean, and then committed after all. */
  lemma DanglingEnds()
    ensures var w, w' := DanglingRun(2 * KINDS + 5), DanglingRun(2 * KINDS + 6);
            && 1 in w.attempts && w.attempts[1].job == 1 && w.attempts[1].phase == Failed(true) && 1 !in w.rows
            && CommittedBy(w', 1, 1) && w'.objects == {}
  {
    var artifacts := DanglingRun(2 * KINDS + 5).attempts[1].artifacts;
    assert artifacts == Described(KINDS);
    FirstDescribed(KINDS);
  }

  lemma {:induction false} FirstDescribed(n: nat)
    requires 0 < n <= KINDS
    ensures Described(n)[0] == StoredArtifact(1, BLANK, 0)
  {
    if n == 1 {
      assert Described(0) == [];
    } else {
      FirstDescribed(n - 1);
    }
  }

  /**
   * The reconciling read takes no lock, so it can be answered "not committed" while the commit is still
   * in flight: every object is deleted, cleanly, and then the job's rows appear and name none that exist.
   */
  lemma LateLandingCanDangle() returns (ws: seq<World>, n: nat, job: JobId)
    ensures Trace(ws) && LandsLate(ws, n, job) && ws[n + 1].objects == {}
    ensures CommittedBy(ws[n + 1], job, 1) && 1 in ws[n].attempts && ws[n].attempts[1].phase == Failed(true)
  {
    ws := DanglingRunIsTrace();
    n, job := 2 * KINDS + 5, 1;
    DanglingEnds();
  }
}
