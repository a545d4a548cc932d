/**
 * What every run of the publication protocol keeps, and exactly where its promises stop: a commit in
 * flight while its attempt is told "not committed", and a clock that moves under a sampled instant.
 */
module PublicationTheorems {
  import opened Records
  import opened Publication

  // ----- runs ----------------------------------------------------------------------------------

  lemma RunsOnward(ws: seq<World>, i: nat)
    requires Trace(ws) && i + 1 < |ws|
    ensures Sound(ws[i]) && Onward(ws[i], ws[i + 1])
  {
    TraceIsSound(ws, i);
    assert StepAt(ws, i);
    StepIsOnward(ws[i], ws[i + 1]);
  }

  /** An attempt's identity is fixed when it starts; one that ended, or was denied, stays so. */
  ghost predicate EnduresTo(w: World, w': World, id: AttemptId) {
    && id in w.attempts && id in w'.attempts
    && SameInputs(w.attempts[id], w'.attempts[id])
    && (Ended(w.attempts[id].phase) ==> w'.attempts[id] == w.attempts[id])
    && (Denied(w.attempts[id].phase) ==> Denied(w'.attempts[id].phase))
  }

  lemma AttemptEndures(ws: seq<World>, i: nat, id: AttemptId)
    requires Trace(ws) && i + 1 < |ws| && id in ws[i].attempts
    ensures EnduresTo(ws[i], ws[i + 1], id)
  {
    RunsOnward(ws, i);
    assert Endures(ws[i], ws[i + 1], id);
  }

  lemma {:induction false} AttemptsEndureAlong(ws: seq<World>, i: nat, j: nat, id: AttemptId)
    requires Trace(ws) && i <= j < |ws| && id in ws[i].attempts
    ensures EnduresTo(ws[i], ws[j], id)
    ensures var before, after := ws[i].attempts[id], ws[j].attempts[id];
            && after.job == before.job && after.bundle == before.bundle && after.payloads == before.payloads
            && after.boundary == before.boundary && after.createdAt == before.createdAt
            && (before.phase.Published? || before.phase.Failed? || before.phase.Unreconciled? ==> after == before)
    decreases j
  {
    if i == j {
    } else {
      AttemptsEndureAlong(ws, i, j - 1, id);
      AttemptEndures(ws, j - 1, id);
    }
  }

  lemma ClockStep(ws: seq<World>, i: nat)
    requires Trace(ws) && i + 1 < |ws|
    ensures ws[i].clock <= ws[i + 1].clock
  {
    RunsOnward(ws, i);
  }

  lemma {:induction false} ClockAdvances(ws: seq<World>, i: nat, j: nat)
    requires Trace(ws) && i <= j < |ws|
    ensures ws[i].clock <= ws[j].clock
    decreases j
  {
    if i == j {
    } else {
      ClockAdvances(ws, i, j - 1);
      ClockStep(ws, j - 1);
    }
  }

  lemma ClaimStep(ws: seq<World>, i: nat, job: JobId)
    requires Trace(ws) && i + 1 < |ws| && job in ws[i].jobs
    ensures job in ws[i + 1].jobs && ws[i].jobs[job].attemptCount <= ws[i + 1].jobs[job].attemptCount
  {
    RunsOnward(ws, i);
  }

  lemma {:induction false} ClaimsCountUp(ws: seq<World>, i: nat, j: nat, job: JobId)
    requires Trace(ws) && i <= j < |ws| && job in ws[i].jobs
    ensures job in ws[j].jobs && ws[i].jobs[job].attemptCount <= ws[j].jobs[job].attemptCount
    decreases j
  {
    if i == j {
    } else {
      ClaimsCountUp(ws, i, j - 1, job);
      ClaimStep(ws, j - 1, job);
    }
  }

  /**
   * Every attempt of a run began in one of its steps, under a lease of its job and over content of the
   * job's scope that were both current at its first instant, while nothing of that job was in flight.
   */
  lemma {:induction false} StartedUnderItsLease(ws: seq<World>, i: nat, id: AttemptId) returns (n: nat)
    requires Trace(ws) && i < |ws| && id in ws[i].attempts
    ensures n < i && id !in ws[n].attempts && ws[i].attempts[id].job in ws[n].jobs
    ensures var attempt := ws[i].attempts[id];
            var own := ws[n].jobs[attempt.job];
            && attempt.job !in ws[n].pending && attempt.createdAt <= ws[n].clock
            && own.running && own.leaseOwner == Some(attempt.boundary.leaseOwner)
            && own.attemptCount == attempt.boundary.attemptNumber
            && own.leaseExpiresAt.Some? && attempt.createdAt < own.leaseExpiresAt.value
            && own.owner == attempt.boundary.owner && own.session == attempt.boundary.session
            && own.session in ws[n].sessions && attempt.createdAt < attempt.boundary.expiresAt
            && ws[n].sessions[own.session] == Content(Some(attempt.boundary.expiresAt), true)
    decreases i
  {
    assert i > 0;
    if id in ws[i - 1].attempts {
      n := StartedUnderItsLease(ws, i - 1, id);
      AttemptsEndureAlong(ws, i - 1, i, id);
    } else {
      n := i - 1;
      TraceIsSound(ws, n);
      assert StepAt(ws, n);
      AppearsByStarting(ws[n], ws[i], id);
    }
  }

  // ----- landings ------------------------------------------------------------------------------

  /** Step `n` writes the job's rows. */
  predicate LandsAt(ws: seq<World>, n: nat, job: JobId) {
    n + 1 < |ws| && job !in ws[n].rows && job in ws[n + 1].rows
  }

  /** Whose attempt a job's rows belong to, if it has any. */
  ghost predicate CommittedBy(w: World, job: JobId, id: AttemptId) {
    job in w.rows && w.rows[job] != [] && w.rows[job][0].key.attempt == id
  }

  ghost predicate InFlightBy(w: World, job: JobId, id: AttemptId) {
    job in w.pending && w.pending[job].id == id
  }

  /** Rows are only ever added, one job's at a time. */
  lemma RowsEndure(ws: seq<World>, i: nat, job: JobId)
    requires Trace(ws) && i + 1 < |ws| && job in ws[i].rows
    ensures job in ws[i + 1].rows && ws[i + 1].rows[job] == ws[i].rows[job]
  {
    RunsOnward(ws, i);
  }

  lemma LandingIsWhole(w: World, w': World, job: JobId) returns (id: AttemptId, at: Moment)
    requires Sound(w) && RowsMove(w, w') && job !in w.rows && job in w'.rows
    ensures LandsFor(w, w', job, id, at) && WholeSet(w'.rows[job], id, w.attempts[id]) && CommittedBy(w', job, id)
  {
    var landed :| Landed(w, w', landed);
    id, at :| LandsFor(w, w', landed, id, at);
    assert landed == job;
    assert AttemptSound(w, id);
  }

  /**
   * The lease fence: rows appear only through the attempt whose boundary is the job's current lease,
   * owner and claim count, over live unexpired content, with a lease unexpired at the commit instant,
   * which was sampled no later than now.
   */
  lemma OnlyTheLeaseHolderCommits(ws: seq<World>, n: nat, job: JobId) returns (id: AttemptId, at: Moment)
    requires Trace(ws) && LandsAt(ws, n, job)
    ensures LandsFor(ws[n], ws[n + 1], job, id, at) && Leased(ws[n], job, ws[n].attempts[id].boundary)
    ensures at < ws[n].jobs[job].leaseExpiresAt.value && at <= ws[n].clock
    ensures WholeSet(ws[n + 1].rows[job], id, ws[n].attempts[id]) && CommittedBy(ws[n + 1], job, id)
    ensures var own, attempt := ws[n].jobs[job], ws[n].attempts[id];
            && own.running && own.leaseOwner == Some(attempt.boundary.leaseOwner)
            && own.attemptCount == attempt.boundary.attemptNumber
            && own.owner == attempt.boundary.owner && own.session == attempt.boundary.session
            && own.session in ws[n].sessions && attempt.createdAt < attempt.boundary.expiresAt
            && ws[n].sessions[own.session] == Content(Some(attempt.boundary.expiresAt), true)
  {
    RunsOnward(ws, n);
    id, at := LandingIsWhole(ws[n], ws[n + 1], job);
  }

  /** What the committing transaction finds when it lets an attempt's set in. */
  ghost predicate CommitIsWelcome(w: World, id: AttemptId, at: Moment)
    requires id in w.attempts
  {
    var attempt := w.attempts[id];
    && attempt.job in w.jobs && attempt.job !in w.pending && attempt.job !in w.rows
    && (attempt.job in w.deliveries ==> w.deliveries[attempt.job] == attempt.bundle)
    && attempt.createdAt < attempt.boundary.expiresAt
    && var own := w.jobs[attempt.job];
       && own.running && own.leaseExpiresAt.Some? && at < own.leaseExpiresAt.value
       && own.leaseOwner == Some(attempt.boundary.leaseOwner) && own.attemptCount == attempt.boundary.attemptNumber
       && own.owner == attempt.boundary.owner && own.session == attempt.boundary.session
       && own.session in w.sessions && w.sessions[own.session].live
       && w.sessions[own.session].expiresAt == Some(attempt.boundary.expiresAt)
  }

  /**
   * The commit check is exact. A commit can be answered exactly when the job is still running under the
   * boundary's own lease, owner and claim, unexpired at the sampled instant, over live content that
   * expires when the boundary said and after the artifacts were created, and when nothing else was
   * delivered for the job. The stored set itself can never be what is wrong.
   */
  lemma CommitsExactlyWhenWelcome(ws: seq<World>, i: nat, id: AttemptId, at: Moment)
    requires Trace(ws) && i < |ws| && id in ws[i].attempts && ws[i].attempts[id].phase == Timed(at)
    ensures (exists next :: Commit(ws[i], next, id) && next.attempts[id].phase == Published)
      <==> CommitIsWelcome(ws[i], id, at)
  {
    var w, attempt := ws[i], ws[i].attempts[id];
    TraceIsSound(ws, i);
    assert AttemptSound(w, id);
    if MayCommit(w, attempt, at) {
      OnlyTheFirstCommitWrites(w, id);
    }
    if CommitIsWelcome(w, id, at) {
      assert Leased(w, attempt.job, attempt.boundary);
      var next := Entering(Committed(w, attempt), id, Published);
      assert Commit(w, next, id) && next.attempts[id].phase == Published;
    }
  }

  /** At most one attempt's set is ever committed for a job: rows once written never change. */
  lemma {:induction false} OneSetPerJob(ws: seq<World>, i: nat, j: nat, job: JobId)
    requires Trace(ws) && i <= j < |ws| && job in ws[i].rows
    ensures job in ws[j].rows && ws[j].rows[job] == ws[i].rows[job]
    decreases j
  {
    if i == j {
    } else {
      OneSetPerJob(ws, i, j - 1, job);
      RowsEndure(ws, j - 1, job);
    }
  }

  /** Nor does what was delivered for a job, whether this protocol delivered it or it was there before. */
  lemma {:induction false} OneDeliveryPerJob(ws: seq<World>, i: nat, j: nat, job: JobId)
    requires Trace(ws) && i <= j < |ws| && job in ws[i].deliveries
    ensures job in ws[j].deliveries && ws[j].deliveries[job] == ws[i].deliveries[job]
    decreases j
  {
    if i == j {
    } else {
      OneDeliveryPerJob(ws, i, j - 1, job);
      RunsOnward(ws, j - 1);
    }
  }

  lemma {:induction false} FirstLanding(ws: seq<World>, i: nat, job: JobId) returns (n: nat)
    requires Trace(ws) && i < |ws| && job in ws[i].rows
    ensures n < i && LandsAt(ws, n, job)
  {
    assert i > 0;
    if job in ws[i - 1].rows {
      n := FirstLanding(ws, i - 1, job);
    } else {
      n := i - 1;
    }
  }

  lemma SupersededDoesNotCommit(ws: seq<World>, i: nat, id: AttemptId)
    requires Trace(ws) && i + 1 < |ws| && id in ws[i].attempts && ws[i].attempts[id].job in ws[i].jobs
    requires ws[i].attempts[id].boundary.attemptNumber < ws[i].jobs[ws[i].attempts[id].job].attemptCount
    requires !CommittedBy(ws[i], ws[i].attempts[id].job, id)
    ensures !CommittedBy(ws[i + 1], ws[i].attempts[id].job, id)
  {
    var job := ws[i].attempts[id].job;
    if job in ws[i].rows {
      RowsEndure(ws, i, job);
    } else if LandsAt(ws, i, job) {
      var writer, at := OnlyTheLeaseHolderCommits(ws, i, job);
    }
  }

  /** Once another worker has claimed the job, the attempt it took over from never commits again. */
  lemma {:induction false} SupersededNeverCommits(ws: seq<World>, i: nat, j: nat, id: AttemptId)
    requires Trace(ws) && i <= j < |ws| && id in ws[i].attempts && ws[i].attempts[id].job in ws[i].jobs
    requires ws[i].attempts[id].boundary.attemptNumber < ws[i].jobs[ws[i].attempts[id].job].attemptCount
    requires !CommittedBy(ws[i], ws[i].attempts[id].job, id)
    ensures !CommittedBy(ws[j], ws[i].attempts[id].job, id)
    decreases j
  {
    if i == j {
    } else {
      SupersededNeverCommits(ws, i, j - 1, id);
      AttemptsEndureAlong(ws, i, j - 1, id);
      ClaimsCountUp(ws, i, j - 1, ws[i].attempts[id].job);
      SupersededDoesNotCommit(ws, j - 1, id);
    }
  }

  // ----- rows and objects ----------------------------------------------------------------------

  /**
   * Whatever was interleaved and whatever failed, a job's rows are the whole seven-kind set of a
   * single attempt, in order, delivered under its bundle, and an object is missing exactly when that
   * attempt's rollback deleted it.
   */
  lemma CommittedRowsAreOneSet(ws: seq<World>, i: nat, job: JobId) returns (id: AttemptId)
    requires Trace(ws) && i < |ws| && job in ws[i].rows
    ensures CommittedBy(ws[i], job, id) && id in ws[i].attempts && ws[i].attempts[id].job == job
    ensures WholeSet(ws[i].rows[job], id, ws[i].attempts[id])
    ensures job in ws[i].deliveries && ws[i].deliveries[job] == ws[i].attempts[id].bundle
    ensures var rows, attempt := ws[i].rows[job], ws[i].attempts[id];
            && |rows| == 7 && |attempt.payloads| == 7
            && forall k :: 0 <= k < 7 ==>
                 && rows[k].job == job && rows[k].kind == k && rows[k].digest == attempt.payloads[k]
                 && rows[k].bundle == attempt.bundle && rows[k].createdAt == attempt.createdAt
                 && rows[k].owner == attempt.boundary.owner && rows[k].session == attempt.boundary.session
                 && rows[k].expiresAt == attempt.boundary.expiresAt
                 && rows[k].key == ObjectKey(attempt.boundary.owner, attempt.boundary.session, attempt.bundle, id, k)
    ensures forall k :: 0 <= k < KINDS ==>
              (ws[i].rows[job][k].key in ws[i].objects <==> ws[i].rows[job][k].key !in ws[i].attempts[id].withdrawn)
    ensures ws[i].attempts[id].withdrawn != {} ==> Denied(ws[i].attempts[id].phase)
    ensures forall key :: key in ws[i].attempts[id].withdrawn ==>
              exists k :: 0 <= k < KINDS && key == ws[i].rows[job][k].key
    ensures ws[i].attempts[id].phase == Failed(true) ==>
              forall k :: 0 <= k < KINDS ==> ws[i].rows[job][k].key !in ws[i].objects
  {
    TraceIsSound(ws, i);
    RowsNameTheirWriter(ws[i], job);
    id := ws[i].rows[job][0].key.attempt;
    assert AttemptSound(ws[i], id);
    RowsTellTheAttempt(ws[i].rows[job], id, ws[i].attempts[id]);
    RecordedIsStored(ws[i], id);
  }

  lemma ScopeStep(ws: seq<World>, i: nat, job: JobId)
    requires Trace(ws) && i + 1 < |ws| && job in ws[i].jobs
    ensures job in ws[i + 1].jobs
    ensures ws[i + 1].jobs[job].owner == ws[i].jobs[job].owner && ws[i + 1].jobs[job].session == ws[i].jobs[job].session
  {
    RunsOnward(ws, i);
  }

  lemma {:induction false} ScopeEndures(ws: seq<World>, i: nat, j: nat, job: JobId)
    requires Trace(ws) && i <= j < |ws| && job in ws[i].jobs
    ensures job in ws[j].jobs
    ensures ws[j].jobs[job].owner == ws[i].jobs[job].owner && ws[j].jobs[job].session == ws[i].jobs[job].session
    decreases j
  {
    if i == j {
    } else {
      ScopeEndures(ws, i, j - 1, job);
      ScopeStep(ws, j - 1, job);
    }
  }

  /** Committed rows, and the keys they name, are in the job's own scope: its owner and its session. */
  lemma RowsAreInTheJobsScope(ws: seq<World>, i: nat, job: JobId, k: nat)
    requires Trace(ws) && i < |ws| && job in ws[i].rows && k < |ws[i].rows[job]|
    ensures job in ws[i].jobs
    ensures var row, own := ws[i].rows[job][k], ws[i].jobs[job];
            row.owner == own.owner && row.session == own.session
            && row.key.owner == own.owner && row.key.session == own.session
  {
    var n := FirstLanding(ws, i, job);
    var writer, at := OnlyTheLeaseHolderCommits(ws, n, job);
    ScopeEndures(ws, n, i, job);
    OneSetPerJob(ws, n + 1, i, job);
    RowsTellTheAttempt(ws[n + 1].rows[job], writer, ws[n].attempts[writer]);
  }

  lemma RecordedIsStored(w: World, id: AttemptId)
    requires AttemptSound(w, id)
    ensures forall k :: 0 <= k < |w.attempts[id].artifacts| ==> w.attempts[id].artifacts[k].key in w.attempts[id].created
    ensures forall key :: key in w.attempts[id].created ==>
              exists k :: 0 <= k < |w.attempts[id].artifacts| && key == w.attempts[id].artifacts[k].key
  {
    var attempt := w.attempts[id];
    forall k | 0 <= k < |attempt.artifacts| ensures attempt.artifacts[k].key in attempt.created {
      assert attempt.artifacts[k] == StoredArtifact(id, attempt, k);
      assert attempt.created[k] == attempt.artifacts[k].key;
    }
    forall key | key in attempt.created ensures exists k :: 0 <= k < |attempt.artifacts| && key == attempt.artifacts[k].key {
      var k :| 0 <= k < |attempt.created| && attempt.created[k] == key;
      assert attempt.artifacts[k] == StoredArtifact(id, attempt, k);
    }
  }

  /** No two committed rows, of one job or of two, name the same object. */
  lemma ObjectsAreNeverShared(ws: seq<World>, i: nat, job: JobId, k: nat, job': JobId, k': nat)
    requires Trace(ws) && i < |ws| && job in ws[i].rows && job' in ws[i].rows
    requires k < |ws[i].rows[job]| && k' < |ws[i].rows[job']|
    requires ws[i].rows[job][k].key == ws[i].rows[job'][k'].key
    ensures job == job' && k == k'
  {
    var id := CommittedRowsAreOneSet(ws, i, job);
    var id' := CommittedRowsAreOneSet(ws, i, job');
  }

  // ----- where an ambiguous commit leaves its objects ------------------------------------------

  lemma NotDeniedStep(ws: seq<World>, i: nat, job: JobId, id: AttemptId)
    requires Trace(ws) && i + 1 < |ws| && CommittedBy(ws[i], job, id) && id in ws[i].attempts
    requires !Denied(ws[i].attempts[id].phase)
    ensures CommittedBy(ws[i + 1], job, id) && id in ws[i + 1].attempts && !Denied(ws[i + 1].attempts[id].phase)
  {
    TraceIsSound(ws, i);
    assert StepAt(ws, i);
    RowsNameTheirWriter(ws[i], job);
    CommittedIsNotDenied(ws[i], ws[i + 1], job, id);
    RowsEndure(ws, i, job);
  }

  lemma {:induction false} NotDeniedAlong(ws: seq<World>, n: nat, i: nat, job: JobId, id: AttemptId)
    requires Trace(ws) && n <= i < |ws| && CommittedBy(ws[n], job, id) && id in ws[n].attempts
    requires !Denied(ws[n].attempts[id].phase)
    ensures CommittedBy(ws[i], job, id) && id in ws[i].attempts && !Denied(ws[i].attempts[id].phase)
    decreases i
  {
    if n == i {
    } else {
      NotDeniedAlong(ws, n, i - 1, job, id);
      NotDeniedStep(ws, i - 1, job, id);
    }
  }

  /** The step that landed a job's rows came after its attempt had been told they were not there. */
  ghost predicate LandsLate(ws: seq<World>, n: nat, job: JobId) {
    && LandsAt(ws, n, job) && ws[n + 1].rows[job] != []
    && var id := ws[n + 1].rows[job][0].key.attempt;
       id in ws[n].attempts && Denied(ws[n].attempts[id].phase)
  }

  lemma LandingKeepsPhase(ws: seq<World>, n: nat, job: JobId) returns (id: AttemptId)
    requires Trace(ws) && LandsAt(ws, n, job)
    ensures id in ws[n].attempts && id in ws[n + 1].attempts && CommittedBy(ws[n + 1], job, id)
    ensures Denied(ws[n].attempts[id].phase) <==> Denied(ws[n + 1].attempts[id].phase)
    ensures LandsLate(ws, n, job) <==> Denied(ws[n].attempts[id].phase)
  {
    var at;
    id, at := OnlyTheLeaseHolderCommits(ws, n, job);
    AttemptEndures(ws, n, id);
    if !Denied(ws[n].attempts[id].phase) {
      TraceIsSound(ws, n);
      assert StepAt(ws, n);
      LandingDoesNotDeny(ws[n], ws[n + 1], job, id);
    }
  }

  /** A job's writer has begun to withdraw exactly when its commit landed after it was told there was none. */
  lemma DeniedExactlyWhenLate(ws: seq<World>, i: nat, job: JobId) returns (id: AttemptId, n: nat)
    requires Trace(ws) && i < |ws| && job in ws[i].rows
    ensures n < i && LandsAt(ws, n, job) && CommittedBy(ws[i], job, id) && id in ws[i].attempts
    ensures Denied(ws[i].attempts[id].phase) <==> LandsLate(ws, n, job)
  {
    n := FirstLanding(ws, i, job);
    id := LandingKeepsPhase(ws, n, job);
    OneSetPerJob(ws, n + 1, i, job);
    AttemptsEndureAlong(ws, n + 1, i, id);
    if !Denied(ws[n + 1].attempts[id].phase) {
      NotDeniedAlong(ws, n + 1, i, job, id);
    }
  }

  ghost predicate ObjectsThere(w: World, job: JobId)
    requires job in w.rows
  {
    forall k :: 0 <= k < |w.rows[job]| ==> w.rows[job][k].key in w.objects
  }

  /**
   * A job's rows name existing objects exactly when its commit did not land after its own reconciliation
   * was answered "not committed"; or landed so, but no delete of that rollback has taken effect. Once the
   * writer's rollback is over cleanly, or was never begun, the first half alone is exact.
   */
  lemma RowsNameObjectsExactlyWhen(ws: seq<World>, i: nat, job: JobId) returns (id: AttemptId, n: nat)
    requires Trace(ws) && i < |ws| && job in ws[i].rows
    ensures n < i && LandsAt(ws, n, job) && CommittedBy(ws[i], job, id) && id in ws[i].attempts
    ensures ObjectsThere(ws[i], job) <==> !LandsLate(ws, n, job) || ws[i].attempts[id].withdrawn == {}
    ensures !ws[i].attempts[id].phase.RollingBack? && ws[i].attempts[id].phase != Failed(false) ==>
              (ObjectsThere(ws[i], job) <==> !LandsLate(ws, n, job))
  {
    id, n := DeniedExactlyWhenLate(ws, i, job);
    var writer := CommittedRowsAreOneSet(ws, i, job);
    assert writer == id;
    WithdrawnMeansMissing(ws, i, job, id);
  }

  lemma WithdrawnMeansMissing(ws: seq<World>, i: nat, job: JobId, id: AttemptId)
    requires Trace(ws) && i < |ws| && job in ws[i].rows && CommittedBy(ws[i], job, id)
    ensures id in ws[i].attempts && (ObjectsThere(ws[i], job) <==> ws[i].attempts[id].withdrawn == {})
    ensures ws[i].attempts[id].withdrawn != {} ==> Denied(ws[i].attempts[id].phase)
    ensures ws[i].attempts[id].phase == Failed(true) ==> !ObjectsThere(ws[i], job)
  {
    var writer := CommittedRowsAreOneSet(ws, i, job);
    var rows, withdrawn := ws[i].rows[job], ws[i].attempts[id].withdrawn;
    if withdrawn != {} {
      var key :| key in withdrawn;
      var k :| 0 <= k < KINDS && key == rows[k].key;
      assert rows[k].key !in ws[i].objects;
    }
    if ws[i].attempts[id].phase == Failed(true) {
      assert rows[0].key !in ws[i].objects;
    }
  }

  /** A publisher that answered its caller told the truth, and it stays true. */
  lemma PublishedStaysPublished(ws: seq<World>, i: nat, j: nat, id: AttemptId)
    requires Trace(ws) && i <= j < |ws| && id in ws[i].attempts && ws[i].attempts[id].phase == Published
    ensures ws[i].attempts[id].job in ws[j].rows && ObjectsThere(ws[j], ws[i].attempts[id].job)
    ensures ws[j].rows[ws[i].attempts[id].job] == ws[i].attempts[id].artifacts
    ensures WholeSet(ws[i].attempts[id].artifacts, id, ws[i].attempts[id])
  {
    AttemptsEndureAlong(ws, i, j, id);
    TraceIsSound(ws, j);
    assert AttemptSound(ws[j], id) && RowsFrom(ws[j], ws[j].attempts[id].job, id);
    RecordedIsStored(ws[j], id);
  }

  // ----- what a failed attempt leaves ----------------------------------------------------------

  lemma FailedStaysOut(ws: seq<World>, i: nat, job: JobId, id: AttemptId)
    requires Trace(ws) && i + 1 < |ws| && id in ws[i].attempts && ws[i].attempts[id].phase.Failed?
    requires !CommittedBy(ws[i], job, id) && !InFlightBy(ws[i], job, id)
    ensures !CommittedBy(ws[i + 1], job, id) && !InFlightBy(ws[i + 1], job, id)
  {
    RunsOnward(ws, i);
    if job in ws[i].rows {
      RowsEndure(ws, i, job);
    } else if LandsAt(ws, i, job) {
      var writer, at := OnlyTheLeaseHolderCommits(ws, i, job);
      LandingWasTimedOrInFlight(ws[i], ws[i + 1], job, writer, at);
    }
  }

  lemma LandingWasTimedOrInFlight(w: World, w': World, job: JobId, id: AttemptId, at: Moment)
    requires LandsFor(w, w', job, id, at)
    ensures w.attempts[id].phase == Timed(at) || InFlightBy(w, job, id)
  {
    if w.pending == w'.pending[job := InFlight(id, at)] {
      assert job in w'.pending[job := InFlight(id, at)];
    }
  }

  lemma {:induction false} FailedStaysOutAlong(ws: seq<World>, i: nat, j: nat, job: JobId, id: AttemptId)
    requires Trace(ws) && i <= j < |ws| && id in ws[i].attempts && ws[i].attempts[id].phase.Failed?
    requires !CommittedBy(ws[i], job, id) && !InFlightBy(ws[i], job, id)
    ensures !CommittedBy(ws[j], job, id) && !InFlightBy(ws[j], job, id)
    decreases j
  {
    if i == j {
    } else {
      FailedStaysOutAlong(ws, i, j - 1, job, id);
      AttemptsEndureAlong(ws, i, j - 1, id);
      FailedStaysOut(ws, j - 1, job, id);
    }
  }

  /**
   * An attempt that failed with every delete answered leaves none of the objects it recorded, then or
   * later. It never commits afterwards either, unless its own commit is still in flight.
   */
  lemma CleanFailureLeavesNothing(ws: seq<World>, i: nat, j: nat, id: AttemptId)
    requires Trace(ws) && i <= j < |ws| && id in ws[i].attempts && ws[i].attempts[id].phase == Failed(true)
    ensures forall key :: key in ws[i].attempts[id].created ==> key !in ws[j].objects
    ensures forall job :: CommittedBy(ws[j], job, id) ==> CommittedBy(ws[i], job, id) || InFlightBy(ws[i], job, id)
  {
    AttemptsEndureAlong(ws, i, j, id);
    TraceIsSound(ws, j);
    assert AttemptSound(ws[j], id);
    forall job | !CommittedBy(ws[i], job, id) && !InFlightBy(ws[i], job, id) ensures !CommittedBy(ws[j], job, id) {
      FailedStaysOutAlong(ws, i, j, job, id);
    }
  }

  /** And that exception is exact: what is in flight can land in the very next step. */
  lemma FailureCanCommitExactlyWhen(ws: seq<World>, i: nat, job: JobId, id: AttemptId)
    requires Trace(ws) && i < |ws| && id in ws[i].attempts && ws[i].attempts[id].phase.Failed?
    ensures (exists next :: Trace(ws[..i + 1] + [next]) && CommittedBy(next, job, id))
      <==> CommittedBy(ws[i], job, id) || InFlightBy(ws[i], job, id)
  {
    var before := ws[..i + 1];
    PrefixIsTrace(ws, i);
    if CommittedBy(ws[i], job, id) {
      assert Elsewhere(ws[i], ws[i]);
      ExtendsTrace(before, ws[i]);
    } else if InFlightBy(ws[i], job, id) {
      TraceIsSound(ws, i);
      var next := Committed(ws[i], ws[i].attempts[id]).(pending := ws[i].pending - {job});
      assert PendingSound(ws[i], job);
      assert Land(ws[i], next, job);
      LandIsLanding(ws[i], next, job);
      ExtendsTrace(before, next);
      assert CommittedBy(next, job, id);
    } else {
      forall next | Trace(before + [next]) ensures !CommittedBy(next, job, id) {
        FailedStaysOut(before + [next], i, job, id);
      }
    }
  }

  lemma PrefixIsTrace(ws: seq<World>, i: nat)
    requires Trace(ws) && i < |ws|
    ensures Trace(ws[..i + 1])
  {
    var before := ws[..i + 1];
    forall k: nat | k + 1 < |before| ensures StepAt(before, k) {
      assert StepAt(ws, k);
    }
  }

  lemma ExtendsTrace(ws: seq<World>, next: World)
    requires Trace(ws) && Step(ws[|ws| - 1], next)
    ensures Trace(ws + [next])
  {
    var longer := ws + [next];
    forall k: nat | k + 1 < |longer| ensures StepAt(longer, k) {
      if k + 1 < |ws| {
        assert StepAt(ws, k);
      }
    }
  }
}
