/**
 * Publishing report artifacts: any number of attempts store objects, commit their metadata under a
 * lease fence, reconcile a commit whose reply was lost, and roll back, with a failure possible at
 * every call and every attempt's calls interleaved with every other's. A commit may raise while it is
 * still in flight: its transaction then holds the rows it locked, unseen, until it lands or vanishes.
 */
module Publication {
  import opened Records

  type JobId = int
  type AttemptId = int
  type Bundle = int

  /** The exact artifact kinds of one report, in publication order. */
  const KINDS := 7

  datatype ObjectKey = ObjectKey(owner: int, session: int, bundle: Bundle, attempt: AttemptId, kind: nat)

  datatype Boundary = Boundary(owner: int, session: int, expiresAt: Moment, leaseOwner: int, attemptNumber: nat)

  datatype Job = Job(
    running: bool, leaseOwner: Option<int>, leaseExpiresAt: Option<Moment>, attemptCount: nat,
    owner: int, session: int)

  /** A committing transaction that passed its checks and was never answered. */
  datatype InFlight = InFlight(id: AttemptId, committedAt: Moment)

  /** What the session table says of a session's content. */
  datatype Content = Content(expiresAt: Option<Moment>, live: bool)

  datatype Artifact = Artifact(
    job: JobId, kind: nat, owner: int, session: int, bundle: Bundle, key: ObjectKey, digest: int,
    createdAt: Moment, expiresAt: Moment)

  datatype Phase =
    | Storing
    | Timed(committedAt: Moment)
    | Unsure
    | RollingBack(left: seq<ObjectKey>)
    | Published
    | Failed(clean: bool)
    | Unreconciled

  /** A running call's local variables; `withdrawn` remembers the deletes that took effect. */
  datatype Attempt = Attempt(
    job: JobId, bundle: Bundle, payloads: seq<int>, boundary: Boundary, createdAt: Moment,
    artifacts: seq<Artifact>, created: seq<ObjectKey>, phase: Phase, withdrawn: set<ObjectKey>)

  datatype World = World(
    clock: Moment, jobs: map<JobId, Job>, sessions: map<int, Content>, deliveries: map<JobId, Bundle>,
    rows: map<JobId, seq<Artifact>>, objects: set<ObjectKey>, attempts: map<AttemptId, Attempt>,
    pending: map<JobId, InFlight>)

  // ----- the pure parts ------------------------------------------------------------------------

  function KeyFor(id: AttemptId, attempt: Attempt, kind: nat): ObjectKey {
    ObjectKey(attempt.boundary.owner, attempt.boundary.session, attempt.bundle, id, kind)
  }

  function StoredArtifact(id: AttemptId, attempt: Attempt, kind: nat): Artifact
    requires kind < |attempt.payloads|
  {
    Artifact(
      attempt.job, kind, attempt.boundary.owner, attempt.boundary.session, attempt.bundle,
      KeyFor(id, attempt, kind), attempt.payloads[kind], attempt.createdAt, attempt.boundary.expiresAt)
  }

  function Reversed(keys: seq<ObjectKey>): (r: seq<ObjectKey>)
    ensures |r| == |keys| && forall i :: 0 <= i < |r| ==> r[i] == keys[|keys| - 1 - i]
  {
    if keys == [] then [] else Reversed(keys[1..]) + [keys[0]]
  }

  /** A running, unexpired lease over live, unexpired content, as `boundary` reads them. */
  predicate Leased(w: World, job: JobId, boundary: Boundary) {
    && job in w.jobs
    && var j := w.jobs[job];
       && j.running && j.leaseOwner == Some(boundary.leaseOwner) && j.attemptCount == boundary.attemptNumber
       && j.owner == boundary.owner && j.session == boundary.session
       && j.leaseExpiresAt.Some?
       && j.session in w.sessions && w.sessions[j.session] == Content(Some(boundary.expiresAt), true)
  }

  /** All seven kinds of one attempt, in order. */
  ghost predicate WholeSet(rows: seq<Artifact>, id: AttemptId, attempt: Attempt) {
    && |rows| == KINDS && |attempt.payloads| == KINDS
    && forall k :: 0 <= k < KINDS ==> rows[k] == StoredArtifact(id, attempt, k)
  }

  /** What each row of such a set says, field by field. */
  lemma RowsTellTheAttempt(rows: seq<Artifact>, id: AttemptId, attempt: Attempt)
    requires WholeSet(rows, id, attempt)
    ensures |rows| == 7 && |attempt.payloads| == 7
    ensures forall k :: 0 <= k < 7 ==>
      && rows[k].job == attempt.job && rows[k].kind == k && rows[k].digest == attempt.payloads[k]
      && rows[k].bundle == attempt.bundle && rows[k].createdAt == attempt.createdAt
      && rows[k].owner == attempt.boundary.owner && rows[k].session == attempt.boundary.session
      && rows[k].expiresAt == attempt.boundary.expiresAt
      && rows[k].key == ObjectKey(attempt.boundary.owner, attempt.boundary.session, attempt.bundle, id, k)
  {
  }

  /** Everything `commit` checks before it writes. */
  predicate MayCommit(w: World, attempt: Attempt, committedAt: Moment) {
    && |attempt.artifacts| == KINDS
    && Leased(w, attempt.job, attempt.boundary)
    && w.jobs[attempt.job].leaseExpiresAt.value > committedAt
    && attempt.createdAt < attempt.boundary.expiresAt
    && (attempt.job in w.deliveries ==> w.deliveries[attempt.job] == attempt.bundle)
    && (attempt.job in w.rows ==> w.rows[attempt.job] == attempt.artifacts)
  }

  function Committed(w: World, attempt: Attempt): World {
    w.(deliveries := w.deliveries[attempt.job := attempt.bundle], rows := w.rows[attempt.job := attempt.artifacts])
  }

  function Entering(w: World, id: AttemptId, phase: Phase): World requires id in w.attempts {
    w.(attempts := w.attempts[id := w.attempts[id].(phase := phase)])
  }

  function Withdrawing(w: World, id: AttemptId, key: ObjectKey, phase: Phase): World requires id in w.attempts {
    var attempt := w.attempts[id];
    w.(objects := w.objects - {key},
       attempts := w.attempts[id := attempt.(phase := phase, withdrawn := attempt.withdrawn + {key})])
  }

  function BeginRollback(w: World, id: AttemptId): World requires id in w.attempts {
    Entering(w, id, RollingBack(Reversed(w.attempts[id].created)))
  }

  // ----- one call at a time --------------------------------------------------------------------

  /**
   * Resolve the boundary, waiting for the job's row, and draw a fresh attempt identity. The attempt's
   * first instant was read before that wait.
   */
  predicate Start(w: World, w': World, id: AttemptId, attempt: Attempt) {
    && id !in w.attempts && |attempt.payloads| == KINDS
    && attempt.createdAt <= w.clock && attempt.artifacts == [] && attempt.created == [] && attempt.phase == Storing
    && attempt.withdrawn == {} && attempt.job !in w.pending
    && Leased(w, attempt.job, attempt.boundary)
    && w.jobs[attempt.job].leaseExpiresAt.value > attempt.createdAt && attempt.boundary.expiresAt > attempt.createdAt
    && w' == w.(attempts := w.attempts[id := attempt])
  }

  /** The next object: written, or found and proved, or the call raises with or without having written. */
  ghost predicate Put(w: World, w': World, id: AttemptId) {
    && id in w.attempts && w.attempts[id].phase == Storing && |w.attempts[id].artifacts| < |w.attempts[id].payloads|
    && var attempt := w.attempts[id];
       var n := |attempt.artifacts|;
       var key := KeyFor(id, attempt, n);
       var stored := attempt.(artifacts := attempt.artifacts + [StoredArtifact(id, attempt, n)]);
       || (key !in w.objects
           && w' == w.(objects := w.objects + {key},
                       attempts := w.attempts[id := stored.(created := attempt.created + [key])]))
       || (key in w.objects && w' == w.(attempts := w.attempts[id := stored]))
       || w' == BeginRollback(w, id)
       || (key !in w.objects && w' == BeginRollback(w.(objects := w.objects + {key}), id))
  }

  /** The commit instant is read before the committing transaction opens. */
  ghost predicate ReadClock(w: World, w': World, id: AttemptId) {
    && id in w.attempts && w.attempts[id].phase == Storing && |w.attempts[id].artifacts| == |w.attempts[id].payloads|
    && w' == Entering(w, id, Timed(w.clock))
  }

  /**
   * The commit lands and is answered, or raises: without effect, or with its transaction in flight.
   * Its checks wait for the job's row, which a transaction in flight still holds.
   */
  ghost predicate Commit(w: World, w': World, id: AttemptId) {
    && id in w.attempts && w.attempts[id].phase.Timed?
    && var attempt := w.attempts[id];
       var at := attempt.phase.committedAt;
       || (attempt.job !in w.pending && MayCommit(w, attempt, at) && w' == Entering(Committed(w, attempt), id, Published))
       || (attempt.job !in w.pending && MayCommit(w, attempt, at)
           && w' == Entering(w.(pending := w.pending[attempt.job := InFlight(id, at)]), id, Unsure))
       || w' == Entering(w, id, Unsure)
  }

  /** What was in flight lands, whatever its attempt has done meanwhile. */
  ghost predicate Land(w: World, w': World, job: JobId) {
    && job in w.pending && w.pending[job].id in w.attempts
    && w' == Committed(w, w.attempts[w.pending[job].id]).(pending := w.pending - {job})
  }

  /** What was in flight turns out never to have committed. */
  ghost predicate Vanish(w: World, w': World, job: JobId) {
    job in w.pending && w' == w.(pending := w.pending - {job})
  }

  /** Ask whether exactly this attempt's set is what the job holds; the question may itself fail. */
  ghost predicate Reconcile(w: World, w': World, id: AttemptId) {
    && id in w.attempts && w.attempts[id].phase == Unsure
    && var attempt := w.attempts[id];
       || w' == Entering(w, id, Unreconciled)
       || (if attempt.job in w.rows && w.rows[attempt.job] == attempt.artifacts
           then w' == Entering(w, id, Published) else w' == BeginRollback(w, id))
  }

  /** Delete the next recorded object, or stop at the first delete that raises. */
  ghost predicate Delete(w: World, w': World, id: AttemptId) {
    && id in w.attempts && w.attempts[id].phase.RollingBack?
    && var left := w.attempts[id].phase.left;
       if left == [] then w' == Entering(w, id, Failed(true))
       else
         || w' == Withdrawing(w, id, left[0], RollingBack(left[1..]))
         || w' == Withdrawing(w, id, left[0], Failed(false))
         || w' == Entering(w, id, Failed(false))
  }

  /**
   * Workers claim, renew, lose and finish leases; content expires; time passes. The job and session
   * rows that a transaction in flight locked stay as they are.
   */
  predicate Elsewhere(w: World, w': World) {
    && w'.clock >= w.clock && w' == w.(clock := w'.clock, jobs := w'.jobs, sessions := w'.sessions)
    && (forall job :: job in w.jobs ==> job in w'.jobs && LaterJob(w.jobs[job], w'.jobs[job]))
    && forall job :: job in w.pending && job in w.jobs ==>
         && w'.jobs[job] == w.jobs[job]
         && (w.jobs[job].session in w.sessions ==>
               w.jobs[job].session in w'.sessions
               && w'.sessions[w.jobs[job].session] == w.sessions[w.jobs[job].session])
  }

  /** Claims count up, and a job keeps its owner and session. */
  predicate LaterJob(j: Job, j': Job) {
    j.attemptCount <= j'.attemptCount && j'.owner == j.owner && j'.session == j.session
  }

  ghost predicate Step(w: World, w': World) {
    || (exists id, attempt :: Start(w, w', id, attempt))
    || (exists id :: AttemptStep(w, w', id))
    || (exists job :: Land(w, w', job) || Vanish(w, w', job))
    || Elsewhere(w, w')
  }

  ghost predicate AttemptStep(w: World, w': World, id: AttemptId) {
    Put(w, w', id) || ReadClock(w, w', id) || Commit(w, w', id) || Reconcile(w, w', id) || Delete(w, w', id)
  }

  ghost predicate Trace(ws: seq<World>) {
    && ws != [] && ws[0].rows == map[] && ws[0].objects == {} && ws[0].attempts == map[] && ws[0].pending == map[]
    && forall i: nat :: i + 1 < |ws| ==> StepAt(ws, i)
  }

  ghost predicate StepAt(ws: seq<World>, i: nat)
    requires i + 1 < |ws|
  {
    Step(ws[i], ws[i + 1])
  }

  // ----- the invariant -------------------------------------------------------------------------

  predicate Ended(phase: Phase) {
    phase.Published? || phase.Failed? || phase.Unreconciled?
  }

  /** The attempt has begun to withdraw what it stored. */
  predicate Denied(phase: Phase) {
    phase.RollingBack? || phase.Failed?
  }

  ghost predicate WellStored(id: AttemptId, attempt: Attempt) {
    && |attempt.payloads| == KINDS && |attempt.artifacts| <= KINDS
    && (forall i :: 0 <= i < |attempt.artifacts| ==> attempt.artifacts[i] == StoredArtifact(id, attempt, i))
    && |attempt.created| == |attempt.artifacts|
    && (forall i :: 0 <= i < |attempt.created| ==> attempt.created[i] == KeyFor(id, attempt, i))
    && (attempt.phase.Timed? || attempt.phase.Unsure? || attempt.phase.Published? ==> |attempt.artifacts| == KINDS)
    && (attempt.phase.RollingBack? ==> forall key :: key in attempt.phase.left ==> key in attempt.created)
  }

  /** Every recorded key is there or was withdrawn, and only an attempt that rolls back withdraws. */
  ghost predicate ObjectsAgree(objects: set<ObjectKey>, id: AttemptId, attempt: Attempt) {
    && (forall key :: key in attempt.created ==> (key in objects <==> key !in attempt.withdrawn))
    && (forall key :: key in attempt.withdrawn ==> key in attempt.created)
    && (!Denied(attempt.phase) ==> attempt.withdrawn == {})
    && (attempt.phase.RollingBack? ==>
          forall key :: key in attempt.created && key !in attempt.phase.left ==> key in attempt.withdrawn)
    && (attempt.phase == Failed(true) ==> forall key :: key in attempt.created ==> key in attempt.withdrawn)
    && (attempt.phase.Storing? ==> forall key :: key in objects && key.attempt == id ==> key in attempt.created)
  }

  ghost predicate AttemptSound(w: World, id: AttemptId) {
    && id in w.attempts && WellStored(id, w.attempts[id]) && ObjectsAgree(w.objects, id, w.attempts[id])
    && (w.attempts[id].phase.Timed? ==> w.attempts[id].phase.committedAt <= w.clock)
  }

  /** A job's rows are one attempt's whole set, and that attempt has asked to commit. */
  ghost predicate RowsFrom(w: World, job: JobId, id: AttemptId) {
    && job in w.rows && id in w.attempts
    && w.attempts[id].job == job && w.rows[job] == w.attempts[id].artifacts && |w.rows[job]| == KINDS
    && job in w.deliveries && w.deliveries[job] == w.attempts[id].bundle
    && !w.attempts[id].phase.Storing? && !w.attempts[id].phase.Timed?
  }

  /** What is in flight would still pass every check, and its attempt has not been told it committed. */
  ghost predicate PendingSound(w: World, job: JobId) {
    && job in w.pending && job !in w.rows
    && var flight := w.pending[job];
       && flight.id in w.attempts && w.attempts[flight.id].job == job && flight.committedAt <= w.clock
       && !w.attempts[flight.id].phase.Storing? && !w.attempts[flight.id].phase.Timed?
       && !w.attempts[flight.id].phase.Published?
       && MayCommit(w, w.attempts[flight.id], flight.committedAt)
  }

  ghost predicate Sound(w: World) {
    && (forall id :: id in w.attempts ==> AttemptSound(w, id))
    && (forall key :: key in w.objects ==> key.attempt in w.attempts)
    && (forall job :: job in w.rows ==> w.rows[job] != [] && RowsFrom(w, job, w.rows[job][0].key.attempt))
    && (forall id :: id in w.attempts && w.attempts[id].phase.Published? ==> RowsFrom(w, w.attempts[id].job, id))
    && (forall job :: job in w.pending ==> PendingSound(w, job))
  }

  // ----- how far one step reaches --------------------------------------------------------------

  /** The same attempt, further along. */
  ghost predicate SameWork(a: Attempt, b: Attempt) {
    b == a.(phase := b.phase, withdrawn := b.withdrawn)
  }

  /** What the caller handed in and what was settled at the start. */
  predicate SameInputs(a: Attempt, b: Attempt) {
    && b.job == a.job && b.bundle == a.bundle && b.payloads == a.payloads
    && b.boundary == a.boundary && b.createdAt == a.createdAt
  }

  /** One attempt's step, seen by everyone else: its own record, its own keys, and nobody's lease. */
  ghost predicate Local(w: World, w': World, id: AttemptId) {
    && id in w.attempts && id in w'.attempts
    && (forall other :: other != id ==> (other in w'.attempts <==> other in w.attempts))
    && (forall other :: other in w.attempts && other != id ==> w'.attempts[other] == w.attempts[other])
    && (forall key: ObjectKey :: key.attempt != id ==> (key in w'.objects <==> key in w.objects))
    && !Ended(w.attempts[id].phase) && (w.attempts[id].phase.Storing? || SameWork(w.attempts[id], w'.attempts[id]))
    && (Denied(w.attempts[id].phase) ==> Denied(w'.attempts[id].phase))
    && (w'.attempts[id].phase.Storing? || w'.attempts[id].phase.Timed? ==> w.attempts[id].phase.Storing?)
    && SameInputs(w.attempts[id], w'.attempts[id])
    && w'.jobs == w.jobs && w'.sessions == w.sessions && w'.clock == w.clock
    && (forall job :: job in w'.pending ==>
          (job in w.pending && w'.pending[job] == w.pending[job])
          || (w.attempts[id].phase == Timed(w'.pending[job].committedAt) && w'.pending[job].id == id))
  }

  /** A commit lands for a job nobody committed: its attempt passes every check at its sampled instant. */
  ghost predicate LandsFor(w: World, w': World, job: JobId, id: AttemptId, committedAt: Moment) {
    && id in w.attempts && w.attempts[id].job == job && job !in w.rows && committedAt <= w.clock
    && MayCommit(w, w.attempts[id], committedAt)
    && (w.attempts[id].phase == Timed(committedAt) || w.pending == w'.pending[job := InFlight(id, committedAt)])
    && w'.rows == w.rows[job := w.attempts[id].artifacts]
    && w'.deliveries == w.deliveries[job := w.attempts[id].bundle]
    && w'.clock == w.clock && w'.jobs == w.jobs
  }

  /** Some commit that landed. */
  ghost predicate Landed(w: World, w': World, job: JobId) {
    exists id, committedAt :: LandsFor(w, w', job, id, committedAt)
  }

  /** The database as the step leaves it: as it was, or one job's first rows. */
  ghost predicate RowsGrow(w: World, w': World, id: AttemptId) {
    || (w'.rows == w.rows && w'.deliveries == w.deliveries)
    || (id in w.attempts && w.attempts[id].phase.Timed? && w.attempts[id].job !in w.pending
        && LandsFor(w, w', w.attempts[id].job, id, w.attempts[id].phase.committedAt))
  }

  /** What one attempt's step does, before it is folded into the invariant. */
  ghost predicate Advances(w: World, w': World, id: AttemptId) {
    Local(w, w', id) && RowsGrow(w, w', id) && Sound(w')
  }

  // ----- every step keeps it -------------------------------------------------------------------

  lemma OthersStaySound(w: World, w': World, id: AttemptId)
    requires Sound(w) && Local(w, w', id) && AttemptSound(w', id)
    ensures forall other :: other in w'.attempts ==> AttemptSound(w', other)
    ensures forall key :: key in w'.objects ==> key.attempt in w'.attempts
  {
    forall other | other in w'.attempts && other != id ensures AttemptSound(w', other) {
      assert AttemptSound(w, other);
      assert forall key :: key in w.attempts[other].created ==> key.attempt == other;
    }
  }

  lemma RowsStaySound(w: World, w': World, id: AttemptId)
    requires Sound(w) && Local(w, w', id) && RowsGrow(w, w', id) && AttemptSound(w', id)
    requires w'.rows != w.rows ==> RowsFrom(w', w.attempts[id].job, id)
    ensures forall job :: job in w'.rows ==> w'.rows[job] != [] && RowsFrom(w', job, w'.rows[job][0].key.attempt)
    ensures forall job, other :: RowsFrom(w, job, other) ==> RowsFrom(w', job, other)
  {
    forall job, other | RowsFrom(w, job, other) ensures RowsFrom(w', job, other) {
    }
    forall job | job in w'.rows ensures w'.rows[job] != [] && RowsFrom(w', job, w'.rows[job][0].key.attempt) {
      if job in w.rows {
        assert RowsFrom(w, job, w.rows[job][0].key.attempt);
      } else {
        assert w'.rows[job][0] == StoredArtifact(id, w'.attempts[id], 0);
      }
    }
  }

  lemma PendingStaysSound(w: World, w': World, id: AttemptId, job: JobId)
    requires Sound(w) && Local(w, w', id) && RowsGrow(w, w', id)
    requires w'.attempts[id].phase.Published? ==> RowsFrom(w', w'.attempts[id].job, id)
    requires job in w.pending && job in w'.pending && w'.pending[job] == w.pending[job]
    ensures PendingSound(w', job)
  {
    assert PendingSound(w, job);
    assert job !in w'.rows;
  }

  lemma LocalStepKeepsSound(w: World, w': World, id: AttemptId)
    requires Sound(w) && Local(w, w', id) && RowsGrow(w, w', id) && AttemptSound(w', id)
    requires w'.rows != w.rows ==> RowsFrom(w', w.attempts[id].job, id)
    requires w'.attempts[id].phase.Published? ==> RowsFrom(w', w'.attempts[id].job, id)
    requires forall job :: job in w'.pending ==>
      (job in w.pending && w'.pending[job] == w.pending[job]) || PendingSound(w', job)
    ensures Sound(w')
  {
    OthersStaySound(w, w', id);
    RowsStaySound(w, w', id);
    forall job | job in w'.pending ensures PendingSound(w', job) {
      if job in w.pending && w'.pending[job] == w.pending[job] {
        PendingStaysSound(w, w', id, job);
      }
    }
    forall other | other in w'.attempts && w'.attempts[other].phase.Published?
      ensures RowsFrom(w', w'.attempts[other].job, other)
    {
      if other != id {
        assert RowsFrom(w, w.attempts[other].job, other);
      }
    }
  }

  // ----- each call -----------------------------------------------------------------------------

  lemma ReversedHoldsTheSame(keys: seq<ObjectKey>, key: ObjectKey)
    ensures key in Reversed(keys) <==> key in keys
  {
    if key in keys {
      var i :| 0 <= i < |keys| && keys[i] == key;
      assert Reversed(keys)[|keys| - 1 - i] == key;
    }
  }

  /** An attempt moves to another phase, having touched only objects of its own. */
  lemma MovingKeepsSound(w: World, w': World, id: AttemptId)
    requires Sound(w) && Local(w, w', id) && AttemptSound(w', id) && !w'.attempts[id].phase.Published?
    requires w'.rows == w.rows && w'.deliveries == w.deliveries && w'.pending == w.pending
    ensures Advances(w, w', id)
  {
    LocalStepKeepsSound(w, w', id);
  }

  /** Rollback starts over every recorded key. */
  lemma RollbackStartsSound(w: World, objects: set<ObjectKey>, id: AttemptId)
    requires Sound(w) && id in w.attempts && (w.attempts[id].phase.Storing? || w.attempts[id].phase.Unsure?)
    requires objects == w.objects
      || (w.attempts[id].phase.Storing? && objects == w.objects + {KeyFor(id, w.attempts[id], |w.attempts[id].artifacts|)})
    ensures Advances(w, BeginRollback(w.(objects := objects), id), id)
  {
    var attempt, w' := w.attempts[id], BeginRollback(w.(objects := objects), id);
    assert AttemptSound(w, id);
    forall key ensures key in Reversed(attempt.created) <==> key in attempt.created {
      ReversedHoldsTheSame(attempt.created, key);
    }
    assert AttemptSound(w', id);
    MovingKeepsSound(w, w', id);
  }

  /** The next object's key was never used: nothing of that attempt beyond what it recorded is there. */
  lemma NextKeyIsFresh(w: World, id: AttemptId)
    requires Sound(w) && id in w.attempts && w.attempts[id].phase.Storing?
    ensures KeyFor(id, w.attempts[id], |w.attempts[id].artifacts|) !in w.objects
  {
    assert AttemptSound(w, id);
  }

  lemma StoredKeepsSound(w: World, w': World, id: AttemptId)
    requires Sound(w) && id in w.attempts && w.attempts[id].phase == Storing
    requires |w.attempts[id].artifacts| < |w.attempts[id].payloads|
    requires var attempt := w.attempts[id];
             var n := |attempt.artifacts|;
             var key := KeyFor(id, attempt, n);
             var stored := attempt.(artifacts := attempt.artifacts + [StoredArtifact(id, attempt, n)]);
             w' == w.(objects := w.objects + {key}, attempts := w.attempts[id := stored.(created := attempt.created + [key])])
    ensures Advances(w, w', id)
  {
    var attempt, attempt' := w.attempts[id], w'.attempts[id];
    assert AttemptSound(w, id);
    NextKeyIsFresh(w, id);
    forall i | 0 <= i < |attempt'.artifacts|
      ensures attempt'.artifacts[i] == StoredArtifact(id, attempt', i) && attempt'.created[i] == KeyFor(id, attempt', i)
    {
      if i < |attempt.artifacts| {
        assert attempt.artifacts[i] == StoredArtifact(id, attempt, i);
      }
    }
    assert forall key :: key in attempt'.created <==> key in attempt.created || key == attempt'.created[|attempt.created|];
    assert AttemptSound(w', id);
    MovingKeepsSound(w, w', id);
  }

  lemma PutKeepsSound(w: World, w': World, id: AttemptId)
    requires Sound(w) && Put(w, w', id)
    ensures Advances(w, w', id)
  {
    var attempt := w.attempts[id];
    var key := KeyFor(id, attempt, |attempt.artifacts|);
    NextKeyIsFresh(w, id);
    if w' == BeginRollback(w, id) {
      RollbackStartsSound(w, w.objects, id);
    } else if w' == BeginRollback(w.(objects := w.objects + {key}), id) {
      RollbackStartsSound(w, w.objects + {key}, id);
    } else {
      StoredKeepsSound(w, w', id);
    }
  }

  lemma ReadClockKeepsSound(w: World, w': World, id: AttemptId)
    requires Sound(w) && ReadClock(w, w', id)
    ensures Advances(w, w', id)
  {
    assert AttemptSound(w, id);
    assert AttemptSound(w', id);
    MovingKeepsSound(w, w', id);
  }

  lemma RowsNameTheirWriter(w: World, job: JobId)
    requires Sound(w) && job in w.rows
    ensures w.rows[job] != [] && RowsFrom(w, job, w.rows[job][0].key.attempt)
  {
  }

  /** Rows already there are another attempt's, and no other attempt's artifacts name the same keys. */
  lemma OnlyTheFirstCommitWrites(w: World, id: AttemptId)
    requires Sound(w) && id in w.attempts && w.attempts[id].phase.Timed?
    requires MayCommit(w, w.attempts[id], w.attempts[id].phase.committedAt)
    ensures w.attempts[id].job !in w.rows
  {
    var attempt := w.attempts[id];
    assert AttemptSound(w, id);
    assert attempt.artifacts[0] == StoredArtifact(id, attempt, 0);
    if attempt.job in w.rows {
      RowsNameTheirWriter(w, attempt.job);
    }
  }

  lemma LandingKeepsSound(w: World, id: AttemptId)
    requires Sound(w) && id in w.attempts && w.attempts[id].phase.Timed? && w.attempts[id].job !in w.pending
    requires MayCommit(w, w.attempts[id], w.attempts[id].phase.committedAt)
    ensures Advances(w, Entering(Committed(w, w.attempts[id]), id, Published), id)
  {
    var attempt := w.attempts[id];
    var w' := Entering(Committed(w, attempt), id, Published);
    assert AttemptSound(w, id);
    OnlyTheFirstCommitWrites(w, id);
    assert AttemptSound(w', id) && RowsFrom(w', attempt.job, id);
    LocalStepKeepsSound(w, w', id);
  }

  lemma FlyingKeepsSound(w: World, id: AttemptId)
    requires Sound(w) && id in w.attempts && w.attempts[id].phase.Timed? && w.attempts[id].job !in w.pending
    requires MayCommit(w, w.attempts[id], w.attempts[id].phase.committedAt)
    ensures var attempt := w.attempts[id];
            Advances(w, Entering(
              w.(pending := w.pending[attempt.job := InFlight(id, attempt.phase.committedAt)]), id, Unsure), id)
  {
    var attempt := w.attempts[id];
    var w' := Entering(w.(pending := w.pending[attempt.job := InFlight(id, attempt.phase.committedAt)]), id, Unsure);
    assert AttemptSound(w, id);
    OnlyTheFirstCommitWrites(w, id);
    assert AttemptSound(w', id);
    assert PendingSound(w', attempt.job);
    LocalStepKeepsSound(w, w', id);
  }

  lemma CommitKeepsSound(w: World, w': World, id: AttemptId)
    requires Sound(w) && Commit(w, w', id)
    ensures Advances(w, w', id)
  {
    assert AttemptSound(w, id);
    if w' == Entering(w, id, Unsure) {
      assert AttemptSound(w', id);
      MovingKeepsSound(w, w', id);
    } else if w'.attempts[id].phase.Published? {
      LandingKeepsSound(w, id);
    } else {
      FlyingKeepsSound(w, id);
    }
  }

  lemma SettlingKeepsSound(w: World, id: AttemptId, phase: Phase)
    requires Sound(w) && id in w.attempts && w.attempts[id].phase.Unsure?
    requires phase.Unreconciled? || phase.Published?
    requires phase.Published? ==> RowsFrom(w, w.attempts[id].job, id)
    ensures Advances(w, Entering(w, id, phase), id)
  {
    assert AttemptSound(w, id);
    assert AttemptSound(Entering(w, id, phase), id);
    LocalStepKeepsSound(w, Entering(w, id, phase), id);
  }

  lemma ReconcileKeepsSound(w: World, w': World, id: AttemptId)
    requires Sound(w) && Reconcile(w, w', id)
    ensures Advances(w, w', id)
  {
    var attempt := w.attempts[id];
    assert AttemptSound(w, id);
    if w' == Entering(w, id, Unreconciled) {
      SettlingKeepsSound(w, id, Unreconciled);
    } else if attempt.job in w.rows && w.rows[attempt.job] == attempt.artifacts {
      SettlingKeepsSound(w, id, Published);
    } else {
      RollbackStartsSound(w, w.objects, id);
    }
  }

  lemma WithdrawnIsSound(w: World, id: AttemptId, phase: Phase)
    requires Sound(w) && id in w.attempts && w.attempts[id].phase.RollingBack? && w.attempts[id].phase.left != []
    requires var left := w.attempts[id].phase.left; phase == RollingBack(left[1..]) || phase == Failed(false)
    ensures Advances(w, Withdrawing(w, id, w.attempts[id].phase.left[0], phase), id)
  {
    var attempt, left := w.attempts[id], w.attempts[id].phase.left;
    var w' := Withdrawing(w, id, left[0], phase);
    assert AttemptSound(w, id);
    assert left == [left[0]] + left[1..];
    assert left[0] in attempt.created;
    assert AttemptSound(w', id);
    MovingKeepsSound(w, w', id);
  }

  /** The rollback ends: with nothing left to delete, or at a delete that raised without effect. */
  lemma FailingKeepsSound(w: World, id: AttemptId, clean: bool)
    requires Sound(w) && id in w.attempts && w.attempts[id].phase.RollingBack?
    requires clean ==> w.attempts[id].phase.left == []
    ensures Advances(w, Entering(w, id, Failed(clean)), id)
  {
    var w' := Entering(w, id, Failed(clean));
    assert AttemptSound(w, id);
    assert AttemptSound(w', id);
    MovingKeepsSound(w, w', id);
  }

  lemma DeleteKeepsSound(w: World, w': World, id: AttemptId)
    requires Sound(w) && Delete(w, w', id)
    ensures Advances(w, w', id)
  {
    var left := w.attempts[id].phase.left;
    if left == [] {
      FailingKeepsSound(w, id, true);
    } else if w' == Entering(w, id, Failed(false)) {
      FailingKeepsSound(w, id, false);
    } else {
      DeletingKeepsSound(w, w', id);
    }
  }

  lemma DeletingKeepsSound(w: World, w': World, id: AttemptId)
    requires Sound(w) && id in w.attempts && w.attempts[id].phase.RollingBack? && w.attempts[id].phase.left != []
    requires var left := w.attempts[id].phase.left;
             || w' == Withdrawing(w, id, left[0], RollingBack(left[1..]))
             || w' == Withdrawing(w, id, left[0], Failed(false))
    ensures Advances(w, w', id)
  {
    var left := w.attempts[id].phase.left;
    WithdrawnIsSound(w, id, if w'.attempts[id].phase.Failed? then Failed(false) else RollingBack(left[1..]));
  }

  lemma AttemptStepKeepsSound(w: World, w': World, id: AttemptId)
    requires Sound(w) && AttemptStep(w, w', id)
    ensures Advances(w, w', id)
  {
    if Put(w, w', id) {
      PutKeepsSound(w, w', id);
    } else if ReadClock(w, w', id) {
      ReadClockKeepsSound(w, w', id);
    } else if Commit(w, w', id) {
      CommitKeepsSound(w, w', id);
    } else if Reconcile(w, w', id) {
      ReconcileKeepsSound(w, w', id);
    } else {
      DeleteKeepsSound(w, w', id);
    }
  }

  // ----- everything else -----------------------------------------------------------------------

  predicate SameDelivery(w: World, w': World, job: JobId) {
    && job in w.rows && job in w'.rows && w'.rows[job] == w.rows[job]
    && job in w.deliveries && job in w'.deliveries && w'.deliveries[job] == w.deliveries[job]
  }

  /** Nothing an attempt stored changes when the database or the clock does. */
  lemma AttemptsStaySound(w: World, w': World)
    requires Sound(w) && w'.attempts == w.attempts && w'.objects == w.objects && w.clock <= w'.clock
    ensures forall id :: id in w'.attempts ==> AttemptSound(w', id)
    ensures forall job, id :: RowsFrom(w, job, id) && SameDelivery(w, w', job) ==> RowsFrom(w', job, id)
  {
    forall id | id in w'.attempts ensures AttemptSound(w', id) {
      assert AttemptSound(w, id);
    }
  }

  /** What lands is the first of its job, under the checks it passed when it was sent. */
  lemma LandIsLanding(w: World, w': World, job: JobId)
    requires Sound(w) && Land(w, w', job)
    ensures LandsFor(w, w', job, w.pending[job].id, w.pending[job].committedAt)
    ensures RowsFrom(w', job, w.pending[job].id) && w'.rows[job] != []
    ensures w'.rows[job][0].key.attempt == w.pending[job].id
  {
    var id := w.pending[job].id;
    assert PendingSound(w, job) && AttemptSound(w, id);
    assert w.attempts[id].artifacts[0] == StoredArtifact(id, w.attempts[id], 0);
    assert w.pending == w'.pending[job := w.pending[job]];
  }

  lemma LandedRowsAreSound(w: World, w': World, job: JobId)
    requires Sound(w) && Land(w, w', job)
    ensures forall other :: other in w'.rows ==> w'.rows[other] != [] && RowsFrom(w', other, w'.rows[other][0].key.attempt)
  {
    LandIsLanding(w, w', job);
    AttemptsStaySound(w, w');
    forall other | other in w'.rows ensures w'.rows[other] != [] && RowsFrom(w', other, w'.rows[other][0].key.attempt) {
      if other != job {
        RowsNameTheirWriter(w, other);
      }
    }
  }

  lemma LandKeepsSound(w: World, w': World, job: JobId)
    requires Sound(w) && Land(w, w', job)
    ensures Sound(w')
  {
    LandedRowsAreSound(w, w', job);
    AttemptsStaySound(w, w');
    forall other | other in w'.pending ensures PendingSound(w', other) {
      assert PendingSound(w, other);
    }
    forall id | id in w'.attempts && w'.attempts[id].phase.Published? ensures RowsFrom(w', w'.attempts[id].job, id) {
      assert RowsFrom(w, w.attempts[id].job, id) && PendingSound(w, job);
    }
  }

  lemma VanishKeepsSound(w: World, w': World, job: JobId)
    requires Sound(w) && Vanish(w, w', job)
    ensures Sound(w')
  {
    AttemptsStaySound(w, w');
    forall other | other in w'.rows ensures w'.rows[other] != [] && RowsFrom(w', other, w'.rows[other][0].key.attempt) {
      RowsNameTheirWriter(w, other);
    }
    forall other | other in w'.pending ensures PendingSound(w', other) {
      assert PendingSound(w, other);
    }
  }

  lemma StartKeepsSound(w: World, w': World, id: AttemptId, attempt: Attempt)
    requires Sound(w) && Start(w, w', id, attempt)
    ensures Sound(w')
  {
    forall other | other in w'.attempts ensures AttemptSound(w', other) {
      if other != id {
        assert AttemptSound(w, other);
      }
    }
    forall job | job in w'.rows ensures w'.rows[job] != [] && RowsFrom(w', job, w'.rows[job][0].key.attempt) {
      RowsNameTheirWriter(w, job);
    }
    forall other | other in w'.attempts && w'.attempts[other].phase.Published?
      ensures RowsFrom(w', w'.attempts[other].job, other)
    {
      assert RowsFrom(w, w.attempts[other].job, other);
    }
    forall job | job in w'.pending ensures PendingSound(w', job) {
      assert PendingSound(w, job);
    }
  }

  lemma ElsewhereKeepsSound(w: World, w': World)
    requires Sound(w) && Elsewhere(w, w')
    ensures Sound(w')
  {
    AttemptsStaySound(w, w');
    forall job | job in w'.rows ensures w'.rows[job] != [] && RowsFrom(w', job, w'.rows[job][0].key.attempt) {
      RowsNameTheirWriter(w, job);
    }
    forall job | job in w'.pending ensures PendingSound(w', job) {
      assert PendingSound(w, job);
    }
  }

  /** The four kinds of step, the invariant kept by each. */
  lemma StepKeepsSound(w: World, w': World)
    requires Sound(w) && Step(w, w')
    ensures Sound(w')
  {
    if id, attempt :| Start(w, w', id, attempt) {
      StartKeepsSound(w, w', id, attempt);
    } else if id :| AttemptStep(w, w', id) {
      AttemptStepKeepsSound(w, w', id);
    } else if job :| Land(w, w', job) || Vanish(w, w', job) {
      if Land(w, w', job) {
        LandKeepsSound(w, w', job);
      } else {
        VanishKeepsSound(w, w', job);
      }
    } else {
      ElsewhereKeepsSound(w, w');
    }
  }

  lemma {:induction false} TraceIsSound(ws: seq<World>, i: nat)
    requires Trace(ws) && i < |ws|
    ensures Sound(ws[i])
  {
    if i == 0 {
    } else {
      TraceIsSound(ws, i - 1);
      assert StepAt(ws, i - 1);
      StepKeepsSound(ws[i - 1], ws[i]);
    }
  }

  // ----- what one step leaves alone ------------------------------------------------------------

  /** How one attempt looks a step later. */
  ghost predicate Endures(w: World, w': World, id: AttemptId) {
    && id in w.attempts && id in w'.attempts
    && SameInputs(w.attempts[id], w'.attempts[id])
    && (w.attempts[id].phase.Storing? || SameWork(w.attempts[id], w'.attempts[id]))
    && (Ended(w.attempts[id].phase) ==> w'.attempts[id] == w.attempts[id])
    && (Denied(w.attempts[id].phase) ==> Denied(w'.attempts[id].phase))
  }

  /** What every step does to the rows: nothing, or one job's landing. */
  ghost predicate RowsMove(w: World, w': World) {
    (w'.rows == w.rows && w'.deliveries == w.deliveries) || exists job :: Landed(w, w', job)
  }

  /** A transaction takes flight only from the attempt whose clock was read for it. */
  ghost predicate PendingMoves(w: World, w': World) {
    forall job :: job in w'.pending ==>
      || (job in w.pending && w'.pending[job] == w.pending[job])
      || (w'.pending[job].id in w.attempts && w.attempts[w'.pending[job].id].phase == Timed(w'.pending[job].committedAt))
  }

  ghost predicate Onward(w: World, w': World) {
    && w.clock <= w'.clock && RowsMove(w, w') && PendingMoves(w, w')
    && (forall id :: id in w.attempts ==> Endures(w, w', id))
    && (forall job :: job in w.jobs ==> job in w'.jobs && LaterJob(w.jobs[job], w'.jobs[job]))
  }

  lemma AdvancesOnward(w: World, w': World, id: AttemptId)
    requires id in w.attempts && Local(w, w', id) && RowsGrow(w, w', id)
    ensures Onward(w, w')
  {
    if w'.rows != w.rows || w'.deliveries != w.deliveries {
      assert LandsFor(w, w', w.attempts[id].job, id, w.attempts[id].phase.committedAt);
      assert Landed(w, w', w.attempts[id].job);
    }
  }

  lemma StartIsOnward(w: World, w': World, id: AttemptId, attempt: Attempt)
    requires Start(w, w', id, attempt)
    ensures Onward(w, w')
  {
  }

  lemma DatabaseStepIsOnward(w: World, w': World, job: JobId)
    requires Sound(w) && (Land(w, w', job) || Vanish(w, w', job))
    ensures Onward(w, w')
  {
    if Land(w, w', job) {
      LandIsLanding(w, w', job);
      assert Landed(w, w', job);
    }
  }

  lemma ElsewhereIsOnward(w: World, w': World)
    requires Elsewhere(w, w')
    ensures Onward(w, w')
  {
  }

  lemma StepIsOnward(w: World, w': World)
    requires Sound(w) && Step(w, w')
    ensures Onward(w, w')
  {
    if id, attempt :| Start(w, w', id, attempt) {
      StartIsOnward(w, w', id, attempt);
    } else if id :| AttemptStep(w, w', id) {
      AttemptStepKeepsSound(w, w', id);
      AdvancesOnward(w, w', id);
    } else if job :| Land(w, w', job) || Vanish(w, w', job) {
      DatabaseStepIsOnward(w, w', job);
    } else {
      ElsewhereIsOnward(w, w');
    }
  }

  // ----- turning points ------------------------------------------------------------------------

  /** A step either makes a call of this attempt or leaves its record as it was. */
  lemma MovesByItsOwnCall(w: World, w': World, id: AttemptId)
    requires Sound(w) && Step(w, w') && id in w.attempts
    ensures id in w'.attempts && (w'.attempts[id] == w.attempts[id] || AttemptStep(w, w', id))
  {
    if other, attempt :| Start(w, w', other, attempt) {
    } else if other :| AttemptStep(w, w', other) {
      AttemptStepKeepsSound(w, w', other);
    }
  }

  /** An attempt that is new has just been started. */
  lemma AppearsByStarting(w: World, w': World, id: AttemptId)
    requires Sound(w) && Step(w, w') && id !in w.attempts && id in w'.attempts
    ensures Start(w, w', id, w'.attempts[id])
  {
    if other, attempt :| Start(w, w', other, attempt) {
      StartAddsOne(w, w', other, attempt);
    } else if other :| AttemptStep(w, w', other) {
      AttemptStepKeepsSound(w, w', other);
      assert false;
    }
  }

  lemma StartAddsOne(w: World, w': World, id: AttemptId, attempt: Attempt)
    requires Start(w, w', id, attempt)
    ensures w'.attempts == w.attempts[id := attempt]
  {
  }

  /** What an attempt may call next is fixed by its phase. */
  lemma NextCalls(w: World, w': World, id: AttemptId)
    requires AttemptStep(w, w', id)
    ensures w.attempts[id].phase.Storing? ==> Put(w, w', id) || ReadClock(w, w', id)
    ensures w.attempts[id].phase.Timed? ==> Commit(w, w', id)
    ensures w.attempts[id].phase.Unsure? ==> Reconcile(w, w', id)
    ensures w.attempts[id].phase.RollingBack? ==> Delete(w, w', id)
    ensures !Ended(w.attempts[id].phase)
  {
  }

  /** Once its rows are there, an attempt that asks is told so, and never begins to withdraw them. */
  lemma CommittedIsNotDenied(w: World, w': World, job: JobId, id: AttemptId)
    requires Sound(w) && Step(w, w') && RowsFrom(w, job, id) && !Denied(w.attempts[id].phase)
    ensures id in w'.attempts && !Denied(w'.attempts[id].phase)
  {
    MovesByItsOwnCall(w, w', id);
    if AttemptStep(w, w', id) {
      NextCalls(w, w', id);
      TellsTheTruth(w, w', job, id);
    }
  }

  lemma TellsTheTruth(w: World, w': World, job: JobId, id: AttemptId)
    requires RowsFrom(w, job, id) && Reconcile(w, w', id)
    ensures id in w'.attempts && !Denied(w'.attempts[id].phase)
  {
  }

  lemma PutReadsNoClock(w: World, w': World, id: AttemptId)
    requires Put(w, w', id)
    ensures id in w'.attempts && !w'.attempts[id].phase.Timed?
  {
  }

  /** The instant an attempt commits under is the one its clock read showed. */
  lemma BecomesTimed(w: World, w': World, id: AttemptId)
    requires Sound(w) && Step(w, w') && id in w.attempts && id in w'.attempts
    requires w'.attempts[id].phase.Timed?
    ensures w'.attempts[id] == w.attempts[id] || (ReadClock(w, w', id) && w'.attempts[id].phase == Timed(w.clock))
  {
    MovesByItsOwnCall(w, w', id);
    if w'.attempts[id] != w.attempts[id] {
      AttemptStepKeepsSound(w, w', id);
      NextCalls(w, w', id);
      if Put(w, w', id) {
        PutReadsNoClock(w, w', id);
      }
    }
  }

  lemma CommitAnswersOrNot(w: World, w': World, id: AttemptId)
    requires Commit(w, w', id)
    ensures id in w'.attempts && !Denied(w'.attempts[id].phase)
  {
  }

  /** A landing itself tells its attempt nothing it would roll back on. */
  lemma LandingDoesNotDeny(w: World, w': World, job: JobId, id: AttemptId)
    requires Sound(w) && Step(w, w') && job !in w.rows && job in w'.rows
    requires id in w.attempts && !Denied(w.attempts[id].phase)
    ensures id in w'.attempts && !Denied(w'.attempts[id].phase)
  {
    MovesByItsOwnCall(w, w', id);
    if AttemptStep(w, w', id) {
      AttemptStepKeepsSound(w, w', id);
      NextCalls(w, w', id);
      CommitAnswersOrNot(w, w', id);
    }
  }
}
