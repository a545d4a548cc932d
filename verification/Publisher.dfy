/**
 * The publisher as the program it is: loops that store payload by payload, remember what they created,
 * and delete it again in reverse. The attempt's record holds the running call's local variables, every
 * call it makes is one step of the protocol, and between any two of its calls everybody else may take
 * any number of steps. A ghost history keeps them all.
 */
module Publisher {
  import opened Records
  import opened Publication
  import opened PublicationTheorems

  datatype PublishOutcome = Delivered | Refused | RolledBack(clean: bool) | Unknown

  /** What the caller handed in and the boundary settled: fixed from the first step on. */
  function Inputs(attempt: Attempt): (JobId, Bundle, seq<int>, Boundary, Moment) {
    (attempt.job, attempt.bundle, attempt.payloads, attempt.boundary, attempt.createdAt)
  }

  /** Whether the attempt's commit would be accepted as things stand. */
  predicate Fenced(w: World, id: AttemptId) {
    && id in w.attempts && w.attempts[id].phase.Timed? && w.attempts[id].job !in w.pending
    && MayCommit(w, w.attempts[id], w.attempts[id].phase.committedAt)
  }

  /** The live storage scope of a job, if its lease and its session's content are both current. */
  function BoundaryOf(w: World, job: JobId, at: Moment): (boundary: Option<Boundary>)
    ensures boundary.Some? ==>
      Leased(w, job, boundary.value) && at < boundary.value.expiresAt && at < w.jobs[job].leaseExpiresAt.value
    ensures boundary.Some? ==>
      && boundary.value.owner == w.jobs[job].owner && boundary.value.session == w.jobs[job].session
      && Some(boundary.value.leaseOwner) == w.jobs[job].leaseOwner
      && boundary.value.attemptNumber == w.jobs[job].attemptCount
      && w.sessions[w.jobs[job].session].expiresAt == Some(boundary.value.expiresAt)
    ensures boundary.None? ==> !exists b ::
      Leased(w, job, b) && at < b.expiresAt && at < w.jobs[job].leaseExpiresAt.value
  {
    if job !in w.jobs then None else
      var j := w.jobs[job];
      if !j.running || j.leaseOwner.None? || j.leaseExpiresAt.None? || j.leaseExpiresAt.value <= at then None
      else if j.session !in w.sessions || w.sessions[j.session].expiresAt.None? || !w.sessions[j.session].live then None
      else if w.sessions[j.session].expiresAt.value <= at then None
      else Some(Boundary(j.owner, j.session, w.sessions[j.session].expiresAt.value, j.leaseOwner.value, j.attemptCount))
  }

  // ----- what one call leaves ------------------------------------------------------------------

  /** After a put that was answered: the object written, or found and proved. */
  function AfterPut(w: World, id: AttemptId): World
    requires id in w.attempts && |w.attempts[id].artifacts| < |w.attempts[id].payloads|
  {
    var attempt := w.attempts[id];
    var key := KeyFor(id, attempt, |attempt.artifacts|);
    var described := attempt.(artifacts := attempt.artifacts + [StoredArtifact(id, attempt, |attempt.artifacts|)]);
    if key in w.objects then w.(attempts := w.attempts[id := described])
    else w.(objects := w.objects + {key},
            attempts := w.attempts[id := described.(created := attempt.created + [key])])
  }

  /** After a put that raised, with or without having written. */
  function AfterLostPut(w: World, id: AttemptId, written: bool): World
    requires id in w.attempts && |w.attempts[id].artifacts| < |w.attempts[id].payloads|
  {
    var key := KeyFor(id, w.attempts[id], |w.attempts[id].artifacts|);
    if written && key !in w.objects then BeginRollback(w.(objects := w.objects + {key}), id) else BeginRollback(w, id)
  }

  lemma PutIsCall(w: World, id: AttemptId, stored: bool, written: bool) returns (next: World)
    requires id in w.attempts && |w.attempts[id].artifacts| < |w.attempts[id].payloads| && w.attempts[id].phase == Storing
    ensures next == (if stored then AfterPut(w, id) else AfterLostPut(w, id, written)) && Put(w, next, id)
    ensures id in next.attempts && Inputs(next.attempts[id]) == Inputs(w.attempts[id])
    ensures next.attempts[id].phase.RollingBack? <==> !stored
    ensures stored ==>
      next.attempts[id].phase == Storing && |next.attempts[id].artifacts| == |w.attempts[id].artifacts| + 1
  {
    next := if stored then AfterPut(w, id) else AfterLostPut(w, id, written);
    assert Put(w, next, id);
  }

  /** And nothing else can come of a put. */
  lemma PutIsOneOfThese(w: World, next: World, id: AttemptId)
    requires Put(w, next, id)
    ensures next == AfterPut(w, id) || exists written :: next == AfterLostPut(w, id, written)
  {
    if next != AfterPut(w, id) {
      assert next == AfterLostPut(w, id, true) || next == AfterLostPut(w, id, false);
    }
  }

  /** After a delete: answered, or raised with or without effect. */
  function AfterDelete(w: World, id: AttemptId, answered: bool, deleted: bool): World
    requires id in w.attempts && w.attempts[id].phase.RollingBack? && w.attempts[id].phase.left != []
  {
    var left := w.attempts[id].phase.left;
    if answered then Withdrawing(w, id, left[0], RollingBack(left[1..]))
    else if deleted then Withdrawing(w, id, left[0], Failed(false)) else Entering(w, id, Failed(false))
  }

  lemma DeleteIsCall(w: World, id: AttemptId, answered: bool, deleted: bool) returns (next: World)
    requires id in w.attempts && w.attempts[id].phase.RollingBack? && w.attempts[id].phase.left != []
    ensures next == AfterDelete(w, id, answered, deleted) && Delete(w, next, id)
    ensures id in next.attempts && Inputs(next.attempts[id]) == Inputs(w.attempts[id])
    ensures if answered then next.attempts[id].phase == RollingBack(w.attempts[id].phase.left[1..])
            else next.attempts[id].phase == Failed(false)
  {
    next := AfterDelete(w, id, answered, deleted);
    assert Delete(w, next, id);
  }

  /** And nothing else can come of a delete. */
  lemma DeleteIsOneOfThese(w: World, next: World, id: AttemptId)
    requires Delete(w, next, id) && w.attempts[id].phase.left != []
    ensures exists answered, deleted :: next == AfterDelete(w, id, answered, deleted)
  {
    assert || next == AfterDelete(w, id, true, true) || next == AfterDelete(w, id, false, true)
           || next == AfterDelete(w, id, false, false);
  }

  lemma LastDeleteIsCall(w: World, id: AttemptId)
    requires id in w.attempts && w.attempts[id].phase == RollingBack([])
    ensures Delete(w, Entering(w, id, Failed(true)), id)
  {
  }

  /** After a reconciliation that was answered. */
  function AfterAnswer(w: World, id: AttemptId, committed: bool): World
    requires id in w.attempts
  {
    if committed then Entering(w, id, Published) else BeginRollback(w, id)
  }

  /** The answer is true of this attempt, and the step it leads to is the one it must. */
  lemma AnswerIsCall(h: seq<World>, id: AttemptId) returns (committed: bool)
    requires Trace(h) && id in h[|h| - 1].attempts && h[|h| - 1].attempts[id].phase.Unsure?
    ensures var w := h[|h| - 1];
            && committed == (w.attempts[id].job in w.rows && w.rows[w.attempts[id].job] == w.attempts[id].artifacts)
            && committed == CommittedBy(w, w.attempts[id].job, id)
            && Reconcile(w, AfterAnswer(w, id, committed), id)
  {
    var w := h[|h| - 1];
    SameRowsMeanCommitted(h, w.attempts[id].job, id);
    committed := w.attempts[id].job in w.rows && w.rows[w.attempts[id].job] == w.attempts[id].artifacts;
    assert Reconcile(w, AfterAnswer(w, id, committed), id);
  }

  /** A job holds exactly this attempt's artifacts exactly when its rows are this attempt's. */
  lemma SameRowsMeanCommitted(h: seq<World>, job: JobId, id: AttemptId)
    requires Trace(h) && id in h[|h| - 1].attempts && h[|h| - 1].attempts[id].job == job
    requires h[|h| - 1].attempts[id].phase.Unsure?
    ensures var w := h[|h| - 1];
            (job in w.rows && w.rows[job] == w.attempts[id].artifacts) <==> CommittedBy(w, job, id)
  {
    var w := h[|h| - 1];
    TraceIsSound(h, |h| - 1);
    assert AttemptSound(w, id);
    assert w.attempts[id].artifacts[0] == StoredArtifact(id, w.attempts[id], 0);
    if job in w.rows {
      RowsNameTheirWriter(w, job);
    }
  }

  // ----- what an outcome means -----------------------------------------------------------------

  /** The attempt's own commit landed in this run after it had been told there was none. */
  ghost predicate LandedLate(h: seq<World>, job: JobId, id: AttemptId) {
    exists n: nat :: LandsLate(h, n, job) && CommittedBy(h[n + 1], job, id)
  }

  /** What each outcome promises its caller, in the world the run has led to. */
  ghost predicate Settled(h: seq<World>, w: World, id: AttemptId, outcome: PublishOutcome) {
    && id in w.attempts && outcome != Refused
    && var attempt := w.attempts[id];
       && (outcome == Delivered ==>
             attempt.job in w.rows && WholeSet(w.rows[attempt.job], id, attempt) && ObjectsThere(w, attempt.job))
       && (outcome.RolledBack? ==> (CommittedBy(w, attempt.job, id) <==> LandedLate(h, attempt.job, id)))
       && (outcome == RolledBack(true) ==> forall key :: key in attempt.created ==> key !in w.objects)
       && (outcome == Unknown ==> forall key :: key in attempt.created ==> key in w.objects)
  }

  /** Every outcome is as good as the attempt's last phase. */
  lemma OutcomesAreTrue(h: seq<World>, id: AttemptId, outcome: PublishOutcome)
    requires Trace(h) && id in h[|h| - 1].attempts
    requires match outcome
             case Delivered => h[|h| - 1].attempts[id].phase == Published
             case RolledBack(clean) => h[|h| - 1].attempts[id].phase == Failed(clean)
             case Unknown => h[|h| - 1].attempts[id].phase == Unreconciled
             case Refused => false
    ensures Settled(h, h[|h| - 1], id, outcome)
  {
    var w := h[|h| - 1];
    TraceIsSound(h, |h| - 1);
    assert AttemptSound(w, id);
    match outcome
    case Delivered =>
      PublishedStaysPublished(h, |h| - 1, |h| - 1, id);
    case RolledBack(_) =>
      RolledBackTruly(h, w.attempts[id].job, id);
    case _ =>
  }

  lemma RolledBackTruly(h: seq<World>, job: JobId, id: AttemptId)
    requires Trace(h) && id in h[|h| - 1].attempts && h[|h| - 1].attempts[id].phase.Failed?
    ensures CommittedBy(h[|h| - 1], job, id) <==> LandedLate(h, job, id)
  {
    if CommittedBy(h[|h| - 1], job, id) {
      var writer, n := DeniedExactlyWhenLate(h, |h| - 1, job);
      OneSetPerJob(h, n + 1, |h| - 1, job);
      assert LandsLate(h, n, job) && CommittedBy(h[n + 1], job, id);
    }
    forall n: nat | LandsLate(h, n, job) && CommittedBy(h[n + 1], job, id) ensures CommittedBy(h[|h| - 1], job, id) {
      OneSetPerJob(h, n + 1, |h| - 1, job);
    }
  }

  /** What a delivered report's rows say, field by field. */
  lemma DeliveredRowsTell(h: seq<World>, id: AttemptId)
    requires Trace(h) && Settled(h, h[|h| - 1], id, Delivered)
    ensures var w := h[|h| - 1];
            var attempt := w.attempts[id];
            var boundary := attempt.boundary;
            && attempt.job in w.rows && |w.rows[attempt.job]| == 7 && |attempt.payloads| == 7
            && attempt.job in w.deliveries && w.deliveries[attempt.job] == attempt.bundle
            && forall k :: 0 <= k < 7 ==>
                 var row := w.rows[attempt.job][k];
                 && row.job == attempt.job && row.kind == k && row.digest == attempt.payloads[k]
                 && row.bundle == attempt.bundle && row.createdAt == attempt.createdAt
                 && row.expiresAt == boundary.expiresAt && row.owner == boundary.owner
                 && row.session == boundary.session
                 && row.key == ObjectKey(boundary.owner, boundary.session, attempt.bundle, id, k)
  {
    var writer := CommittedRowsAreOneSet(h, |h| - 1, h[|h| - 1].attempts[id].job);
    RowsTellTheAttempt(h[|h| - 1].rows[h[|h| - 1].attempts[id].job], id, h[|h| - 1].attempts[id]);
  }

  class ReportArtifactPublisher {
    var world: World
    ghost var history: seq<World>

    ghost predicate Valid() reads this {
      Trace(history) && history[|history| - 1] == world
    }

    /** Nobody else's record changed. */
    twostate predicate OthersKept(id: AttemptId) reads this {
      forall other :: other != id ==>
        && (other in world.attempts <==> other in old(world.attempts))
        && (other in world.attempts ==> world.attempts[other] == old(world.attempts[other]))
    }

    /** This attempt's record is as it was. */
    twostate predicate MineKept(id: AttemptId) reads this {
      && (id in world.attempts <==> id in old(world.attempts))
      && (id in world.attempts ==> world.attempts[id] == old(world.attempts[id]))
    }

    constructor (start: World)
      requires start.rows == map[] && start.objects == {} && start.attempts == map[] && start.pending == map[]
      ensures Valid() && world == start && history == [start]
    {
      world, history := start, [start];
    }

    method Take(next: World)
      requires Valid() && Step(world, next)
      modifies this
      ensures Valid() && world == next && history == old(history) + [next]
    {
      ExtendsTrace(history, next);
      world, history := next, history + [next];
    }

    /** One call of one attempt. */
    method TakeCall(id: AttemptId, next: World)
      requires Valid() && AttemptStep(world, next, id)
      modifies this
      ensures Valid() && world == next && history == old(history) + [next] && OthersKept(id)
    {
      TraceIsSound(history, |history| - 1);
      AttemptStepKeepsSound(world, next, id);
      Take(next);
    }

    // ----- what everybody else may do meanwhile ------------------------------------------------

    /** A transaction in flight over the job's row lands, or vanishes. */
    method Settle(job: JobId)
      requires Valid() && job in world.pending
      modifies this
      ensures Valid() && history == old(history) + [world] && world.pending == old(world.pending) - {job}
      ensures world.attempts == old(world.attempts) && world.clock == old(world.clock)
      ensures Land(old(world), world, job) || Vanish(old(world), world, job)
    {
      TraceIsSound(history, |history| - 1);
      assert PendingSound(world, job);
      var lands: bool := *;
      if lands {
        var next := Committed(world, world.attempts[world.pending[job].id]).(pending := world.pending - {job});
        assert Land(world, next, job);
        Take(next);
      } else {
        var next := world.(pending := world.pending - {job});
        assert Vanish(world, next, job);
        Take(next);
      }
    }

    /** The next call of another attempt, whatever it is. */
    method Call(id: AttemptId)
      requires Valid() && id in world.attempts
      modifies this
      ensures Valid() && old(history) <= history && OthersKept(id)
    {
      TraceIsSound(history, |history| - 1);
      assert AttemptSound(world, id);
      var attempt := world.attempts[id];
      match attempt.phase
      case Storing =>
        if |attempt.artifacts| < |attempt.payloads| {
          var _ := PutNext(id);
        } else {
          ReadTheClock(id);
        }
      case Timed(_) =>
        var _ := CommitNext(id);
      case Unsure =>
        var _ := ReconcileNext(id);
      case RollingBack(_) =>
        DeleteNext(id);
      case _ =>
    }

    /** Another attempt begins, or the world outside the protocol moves. */
    method Stir(id: AttemptId)
      requires Valid()
      modifies this
      ensures Valid() && old(history) <= history && MineKept(id)
    {
      var next: World, other: AttemptId, attempt: Attempt := *, *, *;
      if other != id && Start(world, next, other, attempt) {
        Take(next);
      } else if Elsewhere(world, next) {
        Take(next);
      }
    }

    /** Any number of steps by anybody but this attempt. */
    method Meanwhile(id: AttemptId)
      requires Valid()
      modifies this
      ensures Valid() && old(history) <= history && MineKept(id)
    {
      var rounds: nat := *;
      while rounds > 0
        invariant Valid() && old(history) <= history && MineKept(id)
      {
        var settles: bool, calls: bool, job: JobId, other: AttemptId := *, *, *, *;
        if settles && job in world.pending {
          Settle(job);
        } else if calls && other != id && other in world.attempts {
          Call(other);
        } else {
          Stir(id);
        }
        rounds := rounds - 1;
      }
    }

    // ----- the calls ---------------------------------------------------------------------------

    method PutNext(id: AttemptId) returns (stored: bool)
      requires Valid() && id in world.attempts && world.attempts[id].phase == Storing
      requires |world.attempts[id].artifacts| < |world.attempts[id].payloads|
      modifies this
      ensures Valid() && history == old(history) + [world] && OthersKept(id)
      ensures Put(old(world), world, id)
      ensures id in world.attempts && Inputs(world.attempts[id]) == old(Inputs(world.attempts[id]))
      ensures stored ==>
        && world.attempts[id].phase == Storing
        && |world.attempts[id].artifacts| == |old(world.attempts[id].artifacts)| + 1
      ensures !stored ==> world.attempts[id].phase.RollingBack?
    {
      var written: bool;
      stored, written := *, *;
      var next := if stored then AfterPut(world, id) else AfterLostPut(world, id, written);
      ghost var same := PutIsCall(world, id, stored, written);
      TakeCall(id, next);
    }

    method ReadTheClock(id: AttemptId)
      requires Valid() && id in world.attempts && world.attempts[id].phase == Storing
      requires |world.attempts[id].artifacts| == |world.attempts[id].payloads|
      modifies this
      ensures Valid() && history == old(history) + [world] && OthersKept(id)
      ensures ReadClock(old(world), world, id)
      ensures id in world.attempts
      ensures world.attempts[id] == old(world.attempts[id]).(phase := Timed(old(world.clock)))
    {
      var next := Entering(world, id, Timed(world.clock));
      assert ReadClock(world, next, id);
      TakeCall(id, next);
    }

    /** Commit under the fence. Unanswered, it may have failed, or be in flight. */
    method CommitNext(id: AttemptId) returns (answered: bool)
      requires Valid() && id in world.attempts && world.attempts[id].phase.Timed?
      modifies this
      ensures Valid() && history == old(history) + [world] && OthersKept(id)
      ensures Commit(old(world), world, id)
      ensures id in world.attempts
      ensures world.attempts[id] == old(world.attempts[id]).(phase := if answered then Published else Unsure)
      ensures answered ==> CommittedBy(world, world.attempts[id].job, id)
      ensures !answered ==> world.rows == old(world.rows)
      ensures !old(Fenced(world, id)) ==> !answered && world.pending == old(world.pending)
    {
      var attempt := world.attempts[id];
      var replied: bool, flying: bool := *, *;
      answered := replied && Fenced(world, id);
      var next: World;
      if answered {
        next := Entering(Committed(world, attempt), id, Published);
      } else if flying && Fenced(world, id) {
        next := Entering(
          world.(pending := world.pending[attempt.job := InFlight(id, attempt.phase.committedAt)]), id, Unsure);
      } else {
        next := Entering(world, id, Unsure);
      }
      assert Commit(world, next, id);
      TakeCall(id, next);
      if answered {
        PublishedIsCommitted(history, id);
      }
    }

    /** Ask what was committed. An answer is true of this attempt at the instant it is given. */
    method ReconcileNext(id: AttemptId) returns (committed: Option<bool>)
      requires Valid() && id in world.attempts && world.attempts[id].phase.Unsure?
      modifies this
      ensures Valid() && history == old(history) + [world] && OthersKept(id)
      ensures Reconcile(old(world), world, id)
      ensures id in world.attempts && world.rows == old(world.rows)
      ensures committed.Some? ==> (committed.value <==> CommittedBy(world, world.attempts[id].job, id))
      ensures world.attempts[id] == old(world.attempts[id]).(
        phase := if committed.None? then Unreconciled
                 else if committed.value then Published else RollingBack(Reversed(old(world.attempts[id].created))))
    {
      var answered: bool := *;
      if !answered {
        assert Reconcile(world, Entering(world, id, Unreconciled), id);
        TakeCall(id, Entering(world, id, Unreconciled));
        return None;
      }
      var attempt := world.attempts[id];
      var same := attempt.job in world.rows && world.rows[attempt.job] == attempt.artifacts;
      ghost var truth := AnswerIsCall(history, id);
      TakeCall(id, AfterAnswer(world, id, same));
      return Some(same);
    }

    method DeleteNext(id: AttemptId)
      requires Valid() && id in world.attempts && world.attempts[id].phase.RollingBack?
      modifies this
      ensures Valid() && history == old(history) + [world] && OthersKept(id)
      ensures Delete(old(world), world, id)
      ensures id in world.attempts && Inputs(world.attempts[id]) == old(Inputs(world.attempts[id]))
      ensures world.attempts[id].phase.RollingBack? || world.attempts[id].phase.Failed?
      ensures world.attempts[id].phase.RollingBack? ==>
        |world.attempts[id].phase.left| < |old(world.attempts[id].phase.left)|
    {
      if world.attempts[id].phase.left == [] {
        LastDeleteIsCall(world, id);
        TakeCall(id, Entering(world, id, Failed(true)));
      } else {
        var answered: bool, deleted: bool := *, *;
        ghost var same := DeleteIsCall(world, id, answered, deleted);
        TakeCall(id, AfterDelete(world, id, answered, deleted));
      }
    }

    // ----- the program -------------------------------------------------------------------------

    /** Store the payloads one by one; the first put that raises ends the loop and begins the rollback. */
    method StoreAll(id: AttemptId) returns (stored: bool)
      requires Valid() && id in world.attempts && world.attempts[id].phase == Storing
      modifies this
      ensures Valid() && old(history) <= history
      ensures id in world.attempts && Inputs(world.attempts[id]) == old(Inputs(world.attempts[id]))
      ensures stored ==>
        world.attempts[id].phase == Storing && WholeSet(world.attempts[id].artifacts, id, world.attempts[id])
      ensures !stored ==> world.attempts[id].phase.RollingBack?
    {
      stored := true;
      while stored && |world.attempts[id].artifacts| < |world.attempts[id].payloads|
        invariant Valid() && old(history) <= history
        invariant id in world.attempts && Inputs(world.attempts[id]) == old(Inputs(world.attempts[id]))
        invariant stored ==> world.attempts[id].phase == Storing
        invariant !stored ==> world.attempts[id].phase.RollingBack?
        decreases stored, |world.attempts[id].payloads| - |world.attempts[id].artifacts|
      {
        Meanwhile(id);
        stored := PutNext(id);
      }
      TraceIsSound(history, |history| - 1);
      assert AttemptSound(world, id);
    }

    /** Delete what was recorded, last first; the first delete that raises ends it. */
    method Rollback(id: AttemptId) returns (clean: bool)
      requires Valid() && id in world.attempts && world.attempts[id].phase.RollingBack?
      modifies this
      ensures Valid() && old(history) <= history
      ensures id in world.attempts && Inputs(world.attempts[id]) == old(Inputs(world.attempts[id]))
      ensures world.attempts[id].phase == Failed(clean)
      ensures Settled(history, world, id, RolledBack(clean))
    {
      while world.attempts[id].phase.RollingBack?
        invariant Valid() && old(history) <= history
        invariant id in world.attempts && Inputs(world.attempts[id]) == old(Inputs(world.attempts[id]))
        invariant world.attempts[id].phase.RollingBack? || world.attempts[id].phase.Failed?
        decreases if world.attempts[id].phase.RollingBack? then 1 + |world.attempts[id].phase.left| else 0
      {
        Meanwhile(id);
        DeleteNext(id);
      }
      clean := world.attempts[id].phase.clean;
      OutcomesAreTrue(history, id, RolledBack(clean));
    }

    /** Commit; on any failure ask what was committed, and roll back only on a clear no. */
    method CommitOrReconcile(id: AttemptId) returns (outcome: PublishOutcome)
      requires Valid() && id in world.attempts && world.attempts[id].phase.Timed?
      modifies this
      ensures Valid() && old(history) <= history
      ensures id in world.attempts && Inputs(world.attempts[id]) == old(Inputs(world.attempts[id]))
      ensures Settled(history, world, id, outcome)
    {
      var answered := CommitNext(id);
      if answered {
        OutcomesAreTrue(history, id, Delivered);
        return Delivered;
      }
      Meanwhile(id);
      outcome := ReconcileAndRollback(id);
    }

    method ReconcileAndRollback(id: AttemptId) returns (outcome: PublishOutcome)
      requires Valid() && id in world.attempts && world.attempts[id].phase.Unsure?
      modifies this
      ensures Valid() && old(history) <= history
      ensures id in world.attempts && Inputs(world.attempts[id]) == old(Inputs(world.attempts[id]))
      ensures Settled(history, world, id, outcome)
    {
      var committed := ReconcileNext(id);
      if committed.None? {
        OutcomesAreTrue(history, id, Unknown);
        return Unknown;
      }
      if committed.value {
        OutcomesAreTrue(history, id, Delivered);
        return Delivered;
      }
      var clean := Rollback(id);
      return RolledBack(clean);
    }

    /**
     * Read the first instant, wait for the job's row, resolve the boundary against both, and begin an
     * attempt under an identity nobody has used.
     */
    method StartAttempt(id: AttemptId, job: JobId, bundle: Bundle, payloads: seq<int>) returns (started: bool)
      requires Valid() && id !in world.attempts && |payloads| == KINDS
      modifies this
      ensures Valid() && old(history) <= history
      ensures started ==>
        && |old(history)| < |history|
        && var w := history[|history| - 2];
           && job !in w.pending && BoundaryOf(w, job, old(world.clock)).Some?
           && world == w.(attempts := w.attempts[
                id := Attempt(job, bundle, payloads, BoundaryOf(w, job, old(world.clock)).value, old(world.clock),
                              [], [], Storing, {})])
      ensures !started ==> job !in world.pending && BoundaryOf(world, job, old(world.clock)).None? && id !in world.attempts
    {
      var createdAt := world.clock;
      Meanwhile(id);
      if job in world.pending {
        Settle(job);
      }
      ClockAdvances(history, |old(history)| - 1, |history| - 1);
      var boundary := BoundaryOf(world, job, createdAt);
      if boundary.None? {
        return false;
      }
      var attempt := Attempt(job, bundle, payloads, boundary.value, createdAt, [], [], Storing, {});
      var next := world.(attempts := world.attempts[id := attempt]);
      assert Start(world, next, id, attempt);
      Take(next);
      started := true;
    }

    /**
     * Publish one report. A job already delivered is answered without a step, under the same bundle, or
     * refused; without a boundary nothing is stored; otherwise a new attempt leaves its whole set
     * committed, or rolls itself back, or could not find out and leaves its objects.
     */
    method Publish(id: AttemptId, job: JobId, bundle: Bundle, payloads: seq<int>) returns (outcome: PublishOutcome)
      requires Valid() && id !in world.attempts && |payloads| == KINDS
      modifies this
      ensures Valid() && old(history) <= history
      ensures old(job in world.deliveries && job in world.rows) ==>
        world == old(world) && outcome == if old(world).deliveries[job] == bundle then Delivered else Refused
      ensures !old(job in world.deliveries && job in world.rows) && outcome == Refused ==>
        BoundaryOf(world, job, old(world.clock)).None? && id !in world.attempts
      ensures !old(job in world.deliveries && job in world.rows) && outcome != Refused ==>
        && Settled(history, world, id, outcome)
        && world.attempts[id].job == job && world.attempts[id].bundle == bundle
        && world.attempts[id].payloads == payloads && world.attempts[id].createdAt == old(world.clock)
        && exists n :: |old(history)| - 1 <= n < |history|
             && BoundaryOf(history[n], job, old(world.clock)) == Some(world.attempts[id].boundary)
      ensures !old(job in world.deliveries && job in world.rows) && outcome == Delivered ==>
        && job in world.deliveries && world.deliveries[job] == bundle && job in world.rows && |world.rows[job]| == 7
        && forall k :: 0 <= k < 7 ==>
             var row, boundary := world.rows[job][k], world.attempts[id].boundary;
             && row.job == job && row.kind == k && row.digest == payloads[k] && row.bundle == bundle
             && row.createdAt == old(world.clock) && row.expiresAt == boundary.expiresAt
             && row.owner == boundary.owner && row.session == boundary.session
             && row.key == ObjectKey(boundary.owner, boundary.session, bundle, id, k)
    {
      if job in world.deliveries && job in world.rows {
        return if world.deliveries[job] == bundle then Delivered else Refused;
      }
      var started := StartAttempt(id, job, bundle, payloads);
      if !started {
        return Refused;
      }
      ghost var start, boundary := |history| - 2, world.attempts[id].boundary;
      outcome := Attempted(id);
      assert BoundaryOf(history[start], job, old(world.clock)) == Some(boundary);
      if outcome == Delivered {
        DeliveredRowsTell(history, id);
      }
    }

    /** The attempt, once begun: store, read the clock, commit. */
    method Attempted(id: AttemptId) returns (outcome: PublishOutcome)
      requires Valid() && id in world.attempts && world.attempts[id].phase == Storing
      modifies this
      ensures Valid() && old(history) <= history
      ensures id in world.attempts && Inputs(world.attempts[id]) == old(Inputs(world.attempts[id]))
      ensures Settled(history, world, id, outcome)
    {
      var stored := StoreAll(id);
      if !stored {
        var clean := Rollback(id);
        return RolledBack(clean);
      }
      Meanwhile(id);
      ReadTheClock(id);
      Meanwhile(id);
      outcome := CommitOrReconcile(id);
    }
  }

  lemma PublishedIsCommitted(h: seq<World>, id: AttemptId)
    requires Trace(h) && id in h[|h| - 1].attempts && h[|h| - 1].attempts[id].phase == Published
    ensures CommittedBy(h[|h| - 1], h[|h| - 1].attempts[id].job, id)
  {
    PublishedStaysPublished(h, |h| - 1, |h| - 1, id);
  }
}
