/** Taking owner rows one at a time: a common order never deadlocks, and exactly when an unfixed one can. */
module LockOrder {
  import opened Records
  import opened IdentityState
  import opened OwnerLocks
  import Collections

  type RowOrder = (Row, Row) -> bool

  ghost predicate StrictOrder(before: RowOrder) {
    && (forall a: Row :: !before(a, a))
    && (forall a: Row, b: Row, c: Row :: before(a, b) && before(b, c) ==> before(a, c))
  }

  /** The order the account-wide lock asks the database for. */
  predicate ByOrganizationThenAccount(a: Row, b: Row) {
    a.0 < b.0 || (a.0 == b.0 && a.1 < b.1)
  }

  predicate Ascending(rows: seq<Row>, before: RowOrder) {
    forall i, j :: 0 <= i < j < |rows| ==> before(rows[i], rows[j])
  }

  /** Not blocked: it can take its next row, or it has every row it planned. */
  predicate CanMove(x: System, t: TxnId) requires t in x.txns {
    x.txns[t].phase.Locking? && x.txns[t].phase.todo != [] ==> x.txns[t].phase.todo[0] !in x.locks
  }

  ghost predicate LocksInOrder(open: Open, before: RowOrder) {
    open.phase.Locking? ==>
      && Ascending(open.phase.todo, before)
      && forall held, row :: held in open.held && row in open.phase.todo ==> before(held, row)
  }

  ghost predicate AllInOrder(x: System, before: RowOrder) {
    LocksAgree(x) && forall t :: t in x.txns ==> LocksInOrder(x.txns[t], before)
  }

  /** Every transaction that starts plans its rows in the one order. */
  ghost predicate OrderedStep(x: System, y: System, before: RowOrder) {
    || (exists t, r, todo :: Begin(x, y, t, r, todo) && Ascending(todo, before))
    || (exists t :: Acquire(x, y, t) || Decide(x, y, t) || Commit(x, y, t) || Abort(x, y, t))
    || Elsewhere(x, y)
  }

  lemma AcquireKeepsOrder(x: System, y: System, t: TxnId, before: RowOrder)
    requires AllInOrder(x, before) && Acquire(x, y, t)
    ensures AllInOrder(y, before)
  {
    var todo := x.txns[t].phase.todo;
    var rest := todo[1..];
    assert Ascending(rest, before);
    forall held, row | held in y.txns[t].held && row in rest ensures before(held, row) {
      assert row in todo;
      if held == todo[0] {
        var j :| 0 <= j < |rest| && rest[j] == row;
        assert todo[j + 1] == row;
      }
    }
  }

  lemma BeginKeepsOrder(x: System, y: System, t: TxnId, r: Reduction, todo: seq<Row>, before: RowOrder)
    requires AllInOrder(x, before) && Begin(x, y, t, r, todo) && Ascending(todo, before)
    ensures AllInOrder(y, before)
  {
  }

  lemma LeaveKeepsOrder(x: System, y: System, t: TxnId, before: RowOrder)
    requires AllInOrder(x, before) && (Decide(x, y, t) || Commit(x, y, t) || Abort(x, y, t))
    ensures AllInOrder(y, before)
  {
  }

  lemma StepKeepsOrder(x: System, y: System, before: RowOrder)
    requires AllInOrder(x, before) && OrderedStep(x, y, before)
    ensures AllInOrder(y, before)
  {
    if Elsewhere(x, y) {
      assert y.txns == x.txns && y.locks == x.locks;
    } else if exists t, r, todo :: Begin(x, y, t, r, todo) && Ascending(todo, before) {
      var t, r, todo :| Begin(x, y, t, r, todo) && Ascending(todo, before);
      BeginKeepsOrder(x, y, t, r, todo, before);
    } else {
      var t :| Acquire(x, y, t) || Decide(x, y, t) || Commit(x, y, t) || Abort(x, y, t);
      if Acquire(x, y, t) { AcquireKeepsOrder(x, y, t, before); } else { LeaveKeepsOrder(x, y, t, before); }
    }
  }

  function Wanted(x: System, t: TxnId): Row
    requires t in x.txns && !CanMove(x, t)
  {
    x.txns[t].phase.todo[0]
  }

  /** Among blocked transactions, one wants a row that none of them wants a later one than. */
  lemma {:induction false} LastWanted(x: System, ts: set<TxnId>, before: RowOrder) returns (last: TxnId)
    requires StrictOrder(before)
    requires ts != {} && forall t :: t in ts ==> t in x.txns && !CanMove(x, t)
    ensures last in ts && forall t :: t in ts ==> !before(Wanted(x, last), Wanted(x, t))
    decreases |ts|
  {
    last := Collections.AnyOf(ts);
    var first := last;
    var later := set t | t in ts && before(Wanted(x, first), Wanted(x, t));
    if later == {} {
      forall t | t in ts ensures !before(Wanted(x, last), Wanted(x, t)) {
        assert t !in later;
      }
    } else {
      Collections.Subsets(later, ts - {first});
      last := LastWanted(x, later, before);
      forall t | t in ts ensures !before(Wanted(x, last), Wanted(x, t)) {
        assert t !in later ==> !before(Wanted(x, first), Wanted(x, t));
      }
    }
  }

  /** Whoever holds a wanted row has nothing to want but a later one. */
  lemma HolderWantsLater(x: System, t: TxnId, before: RowOrder)
    requires AllInOrder(x, before) && t in x.txns && !CanMove(x, t)
    ensures var holder := x.locks[Wanted(x, t)];
            holder in x.txns && (!CanMove(x, holder) ==> before(Wanted(x, t), Wanted(x, holder)))
  {
  }

  /** Whoever holds the last wanted row wants nothing itself. */
  lemma HolderCanMove(x: System, last: TxnId, before: RowOrder)
    requires AllInOrder(x, before) && last in x.txns && !CanMove(x, last)
    requires forall t :: t in x.txns && !CanMove(x, t) ==> !before(Wanted(x, last), Wanted(x, t))
    ensures x.locks[Wanted(x, last)] in x.txns && CanMove(x, x.locks[Wanted(x, last)])
  {
    HolderWantsLater(x, last, before);
  }

  /** No waiting cycle: while anything is open, something can move. */
  lemma SomethingCanMove(x: System, before: RowOrder)
    requires StrictOrder(before) && AllInOrder(x, before) && x.txns != map[]
    ensures exists t :: t in x.txns && CanMove(x, t)
  {
    var blocked := set t | t in x.txns && !CanMove(x, t);
    if blocked == {} {
      var t := Collections.AnyOf(x.txns.Keys);
      assert t !in blocked;
    } else {
      var last := LastWanted(x, blocked, before);
      HolderCanMove(x, last, before);
    }
  }

  /** Each of them wants a row that one of them holds: a waiting cycle, or several. */
  predicate WaitInCircles(x: System, ts: set<TxnId>) {
    forall t :: t in ts ==> t in x.txns && !CanMove(x, t) && x.locks[Wanted(x, t)] in ts
  }

  /** However many wait, the holder of the last row they want is not among them. */
  lemma NobodyWaitsInCircles(x: System, ts: set<TxnId>, before: RowOrder)
    requires StrictOrder(before) && AllInOrder(x, before) && ts != {}
    ensures !WaitInCircles(x, ts)
  {
    if forall t :: t in ts ==> t in x.txns && !CanMove(x, t) {
      var last := LastWanted(x, ts, before);
      HolderWantsLater(x, last, before);
    }
  }

  ghost predicate OrderedTrace(xs: seq<System>, before: RowOrder) {
    && xs != [] && xs[0].txns == map[] && xs[0].locks == map[]
    && forall i :: 0 <= i < |xs| - 1 ==> OrderedStep(xs[i], xs[i + 1], before)
  }

  /** Transactions that all lock in one strict order, whichever it is, never deadlock. */
  lemma {:induction false} OrderedLockingNeverDeadlocks(xs: seq<System>, before: RowOrder, i: nat)
    requires StrictOrder(before) && OrderedTrace(xs, before) && i < |xs|
    ensures AllInOrder(xs[i], before)
    ensures forall ts: set<TxnId> :: ts != {} ==> !WaitInCircles(xs[i], ts)
    ensures xs[i].txns != map[] ==> exists t :: t in xs[i].txns && CanMove(xs[i], t)
  {
    if i == 0 {
    } else {
      OrderedLockingNeverDeadlocks(xs, before, i - 1);
      assert OrderedStep(xs[i - 1], xs[i - 1 + 1], before);
      StepKeepsOrder(xs[i - 1], xs[i], before);
    }
    forall ts: set<TxnId> | ts != {} ensures !WaitInCircles(xs[i], ts) {
      NobodyWaitsInCircles(xs[i], ts, before);
    }
    if xs[i].txns != map[] {
      SomethingCanMove(xs[i], before);
    }
  }

  /** The account-wide lock names such an order. */
  lemma AccountWideLockingNeverDeadlocks(xs: seq<System>, i: nat)
    requires OrderedTrace(xs, ByOrganizationThenAccount) && i < |xs| && xs[i].txns != map[]
    ensures exists t :: t in xs[i].txns && CanMove(xs[i], t)
  {
    assert StrictOrder(ByOrganizationThenAccount);
    OrderedLockingNeverDeadlocks(xs, ByOrganizationThenAccount, i);
  }

  // ----- two reductions, each with a plan of its own -------------------------------------------

  /** The rows one locking statement selects, each once, in whatever order it returns them. */
  ghost predicate IsPlan(s: Store, r: Reduction, plan: seq<Row>) {
    && (forall row :: row in plan <==> InLockSet(s, r, row))
    && (forall i, j :: 0 <= i < j < |plan| ==> plan[i] != plan[j])
  }

  /** Two reductions with the order in which each takes its rows. */
  datatype Contest = Contest(one: Reduction, first: seq<Row>, other: Reduction, second: seq<Row>)

  ghost predicate Contended(s: Store, c: Contest) {
    && Startable(s, c.one) && IsPlan(s, c.one, c.first)
    && Startable(s, c.other) && IsPlan(s, c.other, c.second)
  }

  ghost predicate ContestStep(x: System, y: System, c: Contest) {
    || Begin(x, y, 1, c.one, c.first)
    || Begin(x, y, 2, c.other, c.second)
    || (exists t :: Acquire(x, y, t) || Decide(x, y, t) || Commit(x, y, t) || Abort(x, y, t))
  }

  ghost predicate ContestRun(xs: seq<System>, s: Store, c: Contest) {
    && xs != [] && xs[0] == System(s, map[], map[])
    && forall i :: 0 <= i < |xs| - 1 ==> ContestStep(xs[i], xs[i + 1], c)
  }

  /** `t` wants a row that `u` holds. */
  predicate WaitsFor(x: System, t: TxnId, u: TxnId) {
    && t in x.txns && x.txns[t].phase.Locking? && x.txns[t].phase.todo != []
    && x.txns[t].phase.todo[0] in x.locks && x.locks[x.txns[t].phase.todo[0]] == u
  }

  predicate Deadlocked(x: System) {
    WaitsFor(x, 1, 2) && WaitsFor(x, 2, 1)
  }

  /** Position `n` is where the first plan first names a row of the second. */
  predicate FirstShared(plan: seq<Row>, others: seq<Row>, n: nat) {
    n < |plan| && plan[n] in others && forall i :: 0 <= i < n ==> plan[i] !in others
  }

  /** The two come to their common rows through different ones. */
  ghost predicate EnterApart(c: Contest) {
    exists m: nat, n: nat ::
      FirstShared(c.first, c.second, m) && FirstShared(c.second, c.first, n) && c.first[m] != c.second[n]
  }

  // ----- one way in: whoever holds a common row holds the first one

  /** It holds and wants rows of its plan, and wants them in the order of the plan. */
  predicate Follows(open: Open, plan: seq<Row>) {
    && (forall row :: row in open.held ==> row in plan)
    && (open.phase.Locking? ==>
          |open.phase.todo| <= |plan| && open.phase.todo == plan[|plan| - |open.phase.todo|..])
  }

  /** It holds position `n` of its plan, or has not come past it and holds no common row. */
  predicate AtGate(open: Open, plan: seq<Row>, others: seq<Row>, n: nat)
    requires n < |plan|
  {
    || plan[n] in open.held
    || (open.phase.Locking? && |plan| - |open.phase.todo| <= n && forall row :: row in open.held ==> row !in others)
  }

  /** One of the two, while the gate is an owner row. */
  predicate ComesThrough(x: System, t: TxnId, plan: seq<Row>, others: seq<Row>, n: nat)
    requires n < |plan|
  {
    t in x.txns ==>
      && Follows(x.txns[t], plan)
      && (Owns(x.db, plan[n].0, plan[n].1) ==> AtGate(x.txns[t], plan, others, n))
  }

  /** Both come to their common rows through the gate. */
  predicate SameGate(c: Contest, gate: Row, m: nat, n: nat) {
    && FirstShared(c.first, c.second, m) && FirstShared(c.second, c.first, n)
    && c.first[m] == gate && c.second[n] == gate
  }

  ghost predicate Gated(x: System, c: Contest, gate: Row, m: nat, n: nat)
    requires SameGate(c, gate, m, n)
  {
    && LocksAgree(x) && (forall t :: t in x.txns ==> t == 1 || t == 2)
    && (1 in x.txns && 2 in x.txns ==> Owns(x.db, gate.0, gate.1))
    && ComesThrough(x, 1, c.first, c.second, m) && ComesThrough(x, 2, c.second, c.first, n)
  }

  lemma BeginComesThrough(x: System, y: System, t: TxnId, r: Reduction, plan: seq<Row>, others: seq<Row>, n: nat)
    requires n < |plan| && Begin(x, y, t, r, plan)
    ensures ComesThrough(y, t, plan, others, n) && Owns(y.db, plan[n].0, plan[n].1)
  {
    assert plan[n] in plan;
  }

  lemma BeginStaysGated(x: System, y: System, c: Contest, gate: Row, m: nat, n: nat)
    requires SameGate(c, gate, m, n) && Gated(x, c, gate, m, n)
    requires Begin(x, y, 1, c.one, c.first) || Begin(x, y, 2, c.other, c.second)
    ensures Gated(y, c, gate, m, n)
  {
    if Begin(x, y, 1, c.one, c.first) {
      BeginComesThrough(x, y, 1, c.one, c.first, c.second, m);
    } else {
      BeginComesThrough(x, y, 2, c.other, c.second, c.first, n);
    }
  }

  lemma NextOfPlan(plan: seq<Row>, todo: seq<Row>)
    requires 0 < |todo| <= |plan| && todo == plan[|plan| - |todo|..]
    ensures todo[0] == plan[|plan| - |todo|] && todo[1..] == plan[|plan| - |todo[1..]|..]
  {
  }

  lemma AcquireComesThrough(x: System, y: System, t: TxnId, plan: seq<Row>, others: seq<Row>, n: nat)
    requires FirstShared(plan, others, n) && Acquire(x, y, t) && ComesThrough(x, t, plan, others, n)
    ensures ComesThrough(y, t, plan, others, n)
  {
    NextOfPlan(plan, x.txns[t].phase.todo);
  }

  lemma AcquireKeepsLocks(x: System, y: System, t: TxnId)
    requires LocksAgree(x) && Acquire(x, y, t)
    ensures LocksAgree(y)
  {
  }

  lemma AcquireStaysGated(x: System, y: System, c: Contest, gate: Row, m: nat, n: nat, t: TxnId)
    requires SameGate(c, gate, m, n) && Gated(x, c, gate, m, n) && Acquire(x, y, t)
    ensures Gated(y, c, gate, m, n)
  {
    AcquireKeepsLocks(x, y, t);
    if t == 1 {
      AcquireComesThrough(x, y, 1, c.first, c.second, m);
    } else {
      AcquireComesThrough(x, y, 2, c.second, c.first, n);
    }
  }

  lemma DecideStaysGated(x: System, y: System, c: Contest, gate: Row, m: nat, n: nat, t: TxnId)
    requires SameGate(c, gate, m, n) && Gated(x, c, gate, m, n) && Decide(x, y, t)
    ensures Gated(y, c, gate, m, n)
  {
  }

  lemma LeaveStaysGated(x: System, y: System, c: Contest, gate: Row, m: nat, n: nat, t: TxnId)
    requires SameGate(c, gate, m, n) && Gated(x, c, gate, m, n) && (Commit(x, y, t) || Abort(x, y, t))
    ensures Gated(y, c, gate, m, n)
  {
    if Commit(x, y, t) {
      CommitOnlyRemovesOwners(x.db, x.txns[t].what);
    }
  }

  lemma ContestStaysGated(x: System, y: System, c: Contest, gate: Row, m: nat, n: nat)
    requires SameGate(c, gate, m, n) && Gated(x, c, gate, m, n) && ContestStep(x, y, c)
    ensures Gated(y, c, gate, m, n)
  {
    if Begin(x, y, 1, c.one, c.first) || Begin(x, y, 2, c.other, c.second) {
      BeginStaysGated(x, y, c, gate, m, n);
    } else {
      var t :| Acquire(x, y, t) || Decide(x, y, t) || Commit(x, y, t) || Abort(x, y, t);
      if Acquire(x, y, t) {
        AcquireStaysGated(x, y, c, gate, m, n, t);
      } else if Decide(x, y, t) {
        DecideStaysGated(x, y, c, gate, m, n, t);
      } else {
        LeaveStaysGated(x, y, c, gate, m, n, t);
      }
    }
  }

  lemma {:induction false} ContestsStayGated(
      xs: seq<System>, s: Store, c: Contest, gate: Row, m: nat, n: nat, i: nat)
    requires SameGate(c, gate, m, n) && ContestRun(xs, s, c) && i < |xs|
    ensures Gated(xs[i], c, gate, m, n)
  {
    if i == 0 {
    } else {
      ContestsStayGated(xs, s, c, gate, m, n, i - 1);
      assert ContestStep(xs[i - 1], xs[i - 1 + 1], c);
      ContestStaysGated(xs[i - 1], xs[i], c, gate, m, n);
    }
  }

  lemma WaitedOnHolds(x: System, t: TxnId, u: TxnId)
    requires LocksAgree(x) && WaitsFor(x, t, u)
    ensures u in x.txns && x.txns[t].phase.todo[0] in x.txns[u].held
  {
  }

  /** What one waits for is a common row, so the other holds the gate. */
  lemma HolderHasGate(x: System, t: TxnId, u: TxnId, plan: seq<Row>, others: seq<Row>, m: nat, n: nat)
    requires LocksAgree(x) && WaitsFor(x, t, u) && u in x.txns
    requires m < |plan| && n < |others| && ComesThrough(x, t, plan, others, m) && ComesThrough(x, u, others, plan, n)
    requires Owns(x.db, others[n].0, others[n].1)
    ensures others[n] in x.txns[u].held
  {
    WaitedOnHolds(x, t, u);
    NextOfPlan(plan, x.txns[t].phase.todo);
    assert x.txns[t].phase.todo[0] in plan;
  }

  lemma GatedIsNotDeadlocked(x: System, c: Contest, gate: Row, m: nat, n: nat)
    requires SameGate(c, gate, m, n) && Gated(x, c, gate, m, n)
    ensures !Deadlocked(x)
  {
    if WaitsFor(x, 1, 2) {
      WaitedOnHolds(x, 1, 2);
      HolderHasGate(x, 1, 2, c.first, c.second, m, n);
      if WaitsFor(x, 2, 1) {
        HolderHasGate(x, 2, 1, c.second, c.first, n, m);
        BothHold(x, 1, 2, gate);
      }
    }
  }

  // ----- no way in: without a common row nobody waits

  ghost predicate OwnPlans(x: System, c: Contest) {
    && LocksAgree(x)
    && (1 in x.txns ==> Follows(x.txns[1], c.first)) && (2 in x.txns ==> Follows(x.txns[2], c.second))
  }

  lemma AcquireFollows(x: System, y: System, t: TxnId, plan: seq<Row>)
    requires Acquire(x, y, t) && Follows(x.txns[t], plan)
    ensures Follows(y.txns[t], plan)
  {
    NextOfPlan(plan, x.txns[t].phase.todo);
  }

  lemma ContestKeepsPlans(x: System, y: System, c: Contest)
    requires OwnPlans(x, c) && ContestStep(x, y, c)
    ensures OwnPlans(y, c)
  {
    if t :| Acquire(x, y, t) {
      AcquireKeepsLocks(x, y, t);
      if t == 1 {
        AcquireFollows(x, y, 1, c.first);
      } else if t == 2 {
        AcquireFollows(x, y, 2, c.second);
      }
    } else if Begin(x, y, 1, c.one, c.first) || Begin(x, y, 2, c.other, c.second) {
    } else {
      var t :| Decide(x, y, t) || Commit(x, y, t) || Abort(x, y, t);
      LeaveKeepsPlans(x, y, c, t);
    }
  }

  lemma LeaveKeepsPlans(x: System, y: System, c: Contest, t: TxnId)
    requires OwnPlans(x, c) && (Decide(x, y, t) || Commit(x, y, t) || Abort(x, y, t))
    ensures OwnPlans(y, c)
  {
  }

  lemma {:induction false} ContestsKeepPlans(xs: seq<System>, s: Store, c: Contest, i: nat)
    requires ContestRun(xs, s, c) && i < |xs|
    ensures OwnPlans(xs[i], c)
  {
    if i == 0 {
    } else {
      ContestsKeepPlans(xs, s, c, i - 1);
      assert ContestStep(xs[i - 1], xs[i - 1 + 1], c);
      ContestKeepsPlans(xs[i - 1], xs[i], c);
    }
  }

  lemma WaitingSharesARow(x: System, c: Contest)
    requires OwnPlans(x, c) && Deadlocked(x)
    ensures exists row :: row in c.first && row in c.second
  {
    WaitedOnHolds(x, 1, 2);
    NextOfPlan(c.first, x.txns[1].phase.todo);
    assert x.txns[1].phase.todo[0] in c.first && x.txns[1].phase.todo[0] in c.second;
  }

  // ----- two ways in: a run to the cycle

  ghost predicate ContestReaches(s: Store, c: Contest, x: System) {
    exists xs: seq<System> :: ContestRun(xs, s, c) && xs[|xs| - 1] == x
  }

  lemma ContestReachesOn(s: Store, c: Contest, x: System, y: System)
    requires ContestReaches(s, c, x) && ContestStep(x, y, c)
    ensures ContestReaches(s, c, y)
  {
    var xs :| ContestRun(xs, s, c) && xs[|xs| - 1] == x;
    var ys := xs + [y];
    forall i | 0 <= i < |ys| - 1 ensures ContestStep(ys[i], ys[i + 1], c) {
      if i < |xs| - 1 {
        assert ContestStep(xs[i], xs[i + 1], c);
      }
    }
    assert ContestRun(ys, s, c);
  }

  /** One transaction took `rows` besides what it held. */
  function WithRows(x: System, t: TxnId, rows: set<Row>, todo: seq<Row>): System
    requires t in x.txns
  {
    x.(txns := x.txns[t := x.txns[t].(phase := Locking(todo), held := x.txns[t].held + rows)],
       locks := map row | row in x.locks.Keys + rows :: if row in rows then t else x.locks[row])
  }

  /** Nothing held stops it from taking the next `n` rows it planned. */
  ghost predicate Free(x: System, t: TxnId, n: nat) {
    && t in x.txns && x.txns[t].phase.Locking? && n <= |x.txns[t].phase.todo|
    && (forall i :: 0 <= i < n ==>
          Owns(x.db, x.txns[t].phase.todo[i].0, x.txns[t].phase.todo[i].1) && x.txns[t].phase.todo[i] !in x.locks)
    && (forall i, j :: 0 <= i < j < |x.txns[t].phase.todo| ==> x.txns[t].phase.todo[i] != x.txns[t].phase.todo[j])
  }

  function RowsOf(rows: seq<Row>): set<Row> {
    set row | row in rows
  }

  lemma OneMoreRow(rows: seq<Row>, n: nat)
    requires n < |rows|
    ensures RowsOf(rows[..n + 1]) == RowsOf(rows[..n]) + {rows[n]}
  {
    assert rows[..n + 1] == rows[..n] + [rows[n]];
  }

  lemma DistinctRows(rows: seq<Row>, n: nat)
    requires n < |rows| && forall i, j :: 0 <= i < j < |rows| ==> rows[i] != rows[j]
    ensures rows[n] !in RowsOf(rows[..n])
  {
  }

  lemma TakenInTwo(x: System, t: TxnId, rows: set<Row>, row: Row, todo: seq<Row>, rest: seq<Row>)
    requires t in x.txns
    ensures var before := WithRows(x, t, rows, todo);
            && before.locks[row := t] == WithRows(x, t, rows + {row}, rest).locks
            && before.txns[t].held + {row} == WithRows(x, t, rows + {row}, rest).txns[t].held
  {
    var before, after := WithRows(x, t, rows, todo), WithRows(x, t, rows + {row}, rest);
    assert x.txns[t].held + rows + {row} == x.txns[t].held + (rows + {row});
    assert before.locks[row := t].Keys == after.locks.Keys;
  }

  lemma AcquiresNext(x: System, t: TxnId, rows: set<Row>, todo: seq<Row>)
    requires t in x.txns && todo != [] && Owns(x.db, todo[0].0, todo[0].1)
    requires todo[0] !in x.locks && todo[0] !in rows
    ensures Acquire(WithRows(x, t, rows, todo), WithRows(x, t, rows + {todo[0]}, todo[1..]), t)
  {
    TakenInTwo(x, t, rows, todo[0], todo, todo[1..]);
  }

  lemma TakesOneMore(x: System, t: TxnId, n: nat)
    requires Free(x, t, n + 1)
    ensures var todo := x.txns[t].phase.todo;
            Acquire(
              WithRows(x, t, RowsOf(todo[..n]), todo[n..]), WithRows(x, t, RowsOf(todo[..n + 1]), todo[n + 1..]), t)
  {
    var todo := x.txns[t].phase.todo;
    OneMoreRow(todo, n);
    DistinctRows(todo, n);
    assert todo[n..][0] == todo[n] && todo[n..][1..] == todo[n + 1..];
    AcquiresNext(x, t, RowsOf(todo[..n]), todo[n..]);
  }

  lemma {:induction false} TakesRows(s: Store, c: Contest, x: System, t: TxnId, n: nat)
    requires ContestReaches(s, c, x) && Free(x, t, n)
    ensures var todo := x.txns[t].phase.todo;
            ContestReaches(s, c, WithRows(x, t, RowsOf(todo[..n]), todo[n..]))
  {
    var todo := x.txns[t].phase.todo;
    if n == 0 {
      assert WithRows(x, t, RowsOf(todo[..0]), todo[0..]) == x by {
        assert todo[0..] == todo && RowsOf(todo[..0]) == {};
        assert x.txns[t].held + {} == x.txns[t].held && x.locks.Keys + {} == x.locks.Keys;
      }
    } else {
      TakesRows(s, c, x, t, n - 1);
      TakesOneMore(x, t, n - 1);
      ContestReachesOn(
        s, c, WithRows(x, t, RowsOf(todo[..n - 1]), todo[n - 1..]), WithRows(x, t, RowsOf(todo[..n]), todo[n..]));
    }
  }

  function BothOpen(s: Store, c: Contest): System {
    System(s, map[1 := Open(c.one, Locking(c.first), {}), 2 := Open(c.other, Locking(c.second), {})], map[])
  }

  lemma BothBegin(s: Store, c: Contest)
    requires Contended(s, c)
    ensures ContestReaches(s, c, BothOpen(s, c))
  {
    var x0 := System(s, map[], map[]);
    var x1 := x0.(txns := map[1 := Open(c.one, Locking(c.first), {})]);
    assert ContestRun([x0], s, c);
    assert Begin(x0, x1, 1, c.one, c.first);
    ContestReachesOn(s, c, x0, x1);
    assert Begin(x1, BothOpen(s, c), 2, c.other, c.second);
    ContestReachesOn(s, c, x1, BothOpen(s, c));
  }

  /** The first position of a row that satisfies a test some row satisfies. */
  lemma {:induction false} FirstIn(rows: seq<Row>, wanted: set<Row>) returns (n: nat)
    requires exists row :: row in rows && row in wanted
    ensures n < |rows| && rows[n] in wanted && forall i :: 0 <= i < n ==> rows[i] !in wanted
  {
    if rows[0] in wanted {
      n := 0;
    } else {
      var row :| row in rows && row in wanted;
      assert rows == [rows[0]] + rows[1..];
      n := FirstIn(rows[1..], wanted);
      n := n + 1;
    }
  }

  /** The other one has taken everything up to its first common row. */
  function OtherEntered(s: Store, c: Contest, q: nat): System
    requires q < |c.second|
  {
    WithRows(BothOpen(s, c), 2, RowsOf(c.second[..q + 1]), c.second[q + 1..])
  }

  lemma OtherEnters(s: Store, c: Contest, q: nat)
    requires Contended(s, c) && q < |c.second|
    ensures ContestReaches(s, c, OtherEntered(s, c, q))
  {
    BothBegin(s, c);
    forall i | 0 <= i < q + 1 ensures Owns(s, c.second[i].0, c.second[i].1) {
      assert c.second[i] in c.second;
    }
    assert Free(BothOpen(s, c), 2, q + 1);
    TakesRows(s, c, BothOpen(s, c), 2, q + 1);
  }

  /** Then the first has taken everything before that row. */
  function OneBlocked(s: Store, c: Contest, q: nat, n: nat): System
    requires q < |c.second| && n < |c.first|
  {
    WithRows(OtherEntered(s, c, q), 1, RowsOf(c.first[..n]), c.first[n..])
  }

  /** No row before position `n` is one of those. */
  predicate Misses(plan: seq<Row>, n: nat, rows: set<Row>) {
    n <= |plan| && forall i :: 0 <= i < n ==> plan[i] !in rows
  }

  lemma EntranceIsAhead(c: Contest, q: nat, n: nat)
    requires FirstShared(c.second, c.first, q) && n < |c.first| && c.first[n] == c.second[q]
    requires forall i, j :: 0 <= i < j < |c.first| ==> c.first[i] != c.first[j]
    ensures Misses(c.first, n, RowsOf(c.second[..q + 1]))
  {
    forall i | 0 <= i < n ensures c.first[i] !in c.second[..q + 1] {
      assert c.first[i] in c.first && c.first[i] != c.first[n];
    }
  }

  lemma OneRunsOn(s: Store, c: Contest, q: nat, n: nat)
    requires Contended(s, c) && q < |c.second| && n < |c.first|
    requires Misses(c.first, n, RowsOf(c.second[..q + 1]))
    ensures ContestReaches(s, c, OneBlocked(s, c, q, n))
  {
    OtherEnters(s, c, q);
    var x := OtherEntered(s, c, q);
    forall i | 0 <= i < n ensures Owns(s, c.first[i].0, c.first[i].1) && c.first[i] !in x.locks {
      assert c.first[i] in c.first;
    }
    assert Free(x, 1, n);
    TakesRows(s, c, x, 1, n);
  }

  /** And then the other runs on until it wants one of those. */
  function BothBlocked(s: Store, c: Contest, q: nat, n: nat, m: nat): System
    requires q < |c.second| && n < |c.first| && m < |c.second| - q - 1
  {
    WithRows(OneBlocked(s, c, q, n), 2, RowsOf(c.second[q + 1..][..m]), c.second[q + 1..][m..])
  }

  lemma OtherRunsOn(s: Store, c: Contest, q: nat, n: nat, m: nat)
    requires Contended(s, c) && q < |c.second| && n < |c.first| && m < |c.second| - q - 1
    requires ContestReaches(s, c, OneBlocked(s, c, q, n)) && Misses(c.second[q + 1..], m, RowsOf(c.first[..n]))
    ensures ContestReaches(s, c, BothBlocked(s, c, q, n, m))
  {
    OtherIsFree(s, c, q, n, m);
    TakesRows(s, c, OneBlocked(s, c, q, n), 2, m);
  }

  lemma OtherIsFree(s: Store, c: Contest, q: nat, n: nat, m: nat)
    requires Contended(s, c) && q < |c.second| && n < |c.first| && m < |c.second| - q - 1
    requires Misses(c.second[q + 1..], m, RowsOf(c.first[..n]))
    ensures Free(OneBlocked(s, c, q, n), 2, m)
  {
    var x, rest := OneBlocked(s, c, q, n), c.second[q + 1..];
    forall i | 0 <= i < m ensures Owns(s, rest[i].0, rest[i].1) && rest[i] !in x.locks {
      assert rest[i] == c.second[i + q + 1] && rest[i] in c.second && rest[i] !in c.second[..q + 1];
    }
  }

  lemma BothBlockedIsDeadlock(s: Store, c: Contest, q: nat, n: nat, m: nat)
    requires q < |c.second| && n < |c.first| && m < |c.second| - q - 1
    requires c.first[n] == c.second[q] && c.second[q + 1 + m] in RowsOf(c.first[..n])
    requires c.second[q + 1 + m] !in RowsOf(c.second[q + 1..][..m]) && c.second[q] !in RowsOf(c.first[..n])
    ensures Deadlocked(BothBlocked(s, c, q, n, m))
  {
    assert c.second[..q + 1][q] == c.second[q];
    assert c.second[q] in c.second[..q + 1];
    assert c.first[n..][0] == c.first[n] && c.second[q + 1..][m..][0] == c.second[q + 1 + m];
  }

  /** Each one's first common row comes after the other's in the other's plan. */
  lemma EntrancesLie(c: Contest, p: nat, q: nat) returns (n: nat, l: nat)
    requires FirstShared(c.first, c.second, p) && FirstShared(c.second, c.first, q) && c.first[p] != c.second[q]
    ensures p < n < |c.first| && c.first[n] == c.second[q]
    ensures q < l < |c.second| && c.second[l] == c.first[p]
  {
    n :| 0 <= n < |c.first| && c.first[n] == c.second[q];
    l :| 0 <= l < |c.second| && c.second[l] == c.first[p];
    assert c.second[q] in c.second && c.first[p] in c.first;
  }

  lemma EntrancesCross(c: Contest, p: nat, q: nat) returns (n: nat, m: nat)
    requires FirstShared(c.first, c.second, p) && FirstShared(c.second, c.first, q) && c.first[p] != c.second[q]
    ensures p < n < |c.first| && c.first[n] == c.second[q]
    ensures m < |c.second| - q - 1 && c.second[q + 1 + m] in RowsOf(c.first[..n])
    ensures Misses(c.second[q + 1..], m, RowsOf(c.first[..n]))
  {
    var l: nat;
    n, l := EntrancesLie(c, p, q);
    var rest := c.second[q + 1..];
    assert rest[l - q - 1] == c.first[p] && c.first[..n][p] == c.first[p];
    assert c.first[p] in rest && c.first[p] in RowsOf(c.first[..n]);
    m := FirstIn(rest, RowsOf(c.first[..n]));
  }

  /** Each takes its first common row; one runs on until it wants the other's, and then the other does. */
  lemma DifferentEntrancesDeadlock(s: Store, c: Contest) returns (x: System)
    requires Contended(s, c) && EnterApart(c)
    ensures ContestReaches(s, c, x) && Deadlocked(x)
  {
    var p: nat, q: nat :|
      FirstShared(c.first, c.second, p) && FirstShared(c.second, c.first, q) && c.first[p] != c.second[q];
    var n, m := EntrancesCross(c, p, q);
    EntranceIsAhead(c, q, n);
    RunsToDeadlock(s, c, q, n, m);
    x := BothBlocked(s, c, q, n, m);
  }

  lemma RunsToDeadlock(s: Store, c: Contest, q: nat, n: nat, m: nat)
    requires Contended(s, c) && q < |c.second| && n < |c.first| && c.first[n] == c.second[q]
    requires m < |c.second| - q - 1 && c.second[q + 1 + m] in RowsOf(c.first[..n])
    requires Misses(c.first, n, RowsOf(c.second[..q + 1])) && Misses(c.second[q + 1..], m, RowsOf(c.first[..n]))
    ensures ContestReaches(s, c, BothBlocked(s, c, q, n, m)) && Deadlocked(BothBlocked(s, c, q, n, m))
  {
    OneRunsOn(s, c, q, n);
    OtherRunsOn(s, c, q, n, m);
    DistinctRows(c.first, n);
    DistinctRows(c.second[q + 1..], m);
    BothBlockedIsDeadlock(s, c, q, n, m);
  }

  // ----- the condition -------------------------------------------------------------------------

  /** Who waits, waits for a common row; so there is one, and if both came the same way one of them has no gate. */
  lemma DeadlockEntersApart(s: Store, c: Contest, x: System)
    requires ContestReaches(s, c, x) && Deadlocked(x)
    ensures EnterApart(c)
  {
    var xs :| ContestRun(xs, s, c) && xs[|xs| - 1] == x;
    ContestsKeepPlans(xs, s, c, |xs| - 1);
    WaitingSharesARow(x, c);
    var m := FirstIn(c.first, RowsOf(c.second));
    var n := FirstIn(c.second, RowsOf(c.first));
    assert FirstShared(c.first, c.second, m) && FirstShared(c.second, c.first, n);
    if c.first[m] == c.second[n] {
      ContestsStayGated(xs, s, c, c.first[m], m, n, |xs| - 1);
      GatedIsNotDeadlocked(x, c, c.first[m], m, n);
    }
  }

  /**
   * Any two reductions, each taking its rows in any order of its own, can come to wait for each other
   * exactly when they share rows and come to them through different ones. Taking some pair of rows in
   * opposite orders is needed for that and is not enough: a common row that both take before every other
   * common row lets only one in.
   */
  lemma DeadlockExactlyWhenEnteredApart(s: Store, c: Contest)
    requires Contended(s, c)
    ensures (exists x: System :: ContestReaches(s, c, x) && Deadlocked(x)) <==> EnterApart(c)
  {
    if EnterApart(c) {
      var x := DifferentEntrancesDeadlock(s, c);
    } else {
      forall x | ContestReaches(s, c, x) ensures !Deadlocked(x) {
        if Deadlocked(x) {
          DeadlockEntersApart(s, c, x);
        }
      }
    }
  }

  /** Two rows are taken in opposite orders. */
  predicate Crossed(first: seq<Row>, second: seq<Row>) {
    exists i, j, k, l ::
      0 <= i < j < |first| && 0 <= k < l < |second| && first[i] == second[l] && first[j] == second[k]
  }

  lemma DeadlockNeedsCrossedRows(s: Store, c: Contest, x: System)
    requires ContestReaches(s, c, x) && Deadlocked(x)
    ensures Crossed(c.first, c.second)
  {
    DeadlockEntersApart(s, c, x);
    var p: nat, q: nat :|
      FirstShared(c.first, c.second, p) && FirstShared(c.second, c.first, q) && c.first[p] != c.second[q];
    var n, l := EntrancesLie(c, p, q);
  }

  // ----- two membership changes of one organization

  predicate OfMembership(r: Reduction) {
    r.Remove? || r.Downgrade?
  }

  /** Both select the owner rows of one organization. */
  lemma SameOwnerRows(s: Store, c: Contest)
    requires Contended(s, c) && OfMembership(c.one) && OfMembership(c.other) && c.one.org == c.other.org
    ensures forall row :: row in c.first <==> row in c.second
  {
    forall row ensures row in c.first <==> row in c.second {
      assert InLockSet(s, c.one, row) <==> InLockSet(s, c.other, row);
    }
  }

  /** They lock the same rows, in orders nothing fixes: the two must start with different ones. */
  lemma TwoChangesDeadlockExactlyWhen(s: Store, c: Contest)
    requires Contended(s, c) && OfMembership(c.one) && OfMembership(c.other) && c.one.org == c.other.org
    ensures (exists x: System :: ContestReaches(s, c, x) && Deadlocked(x))
      <==> c.first != [] && c.second != [] && c.first[0] != c.second[0]
  {
    SameOwnerRows(s, c);
    DeadlockExactlyWhenEnteredApart(s, c);
    if c.first != [] && c.second != [] {
      assert c.first[0] in c.second && c.second[0] in c.first;
      assert FirstShared(c.first, c.second, 0) && FirstShared(c.second, c.first, 0);
    }
  }

  // ----- a disablement or an unlinking against a membership change

  /**
   * The account-wide lock is taken in order and the one-organization lock is not. The two can come to
   * wait for each other exactly when the account owns the organization and the membership change takes
   * some other row of it before the least one.
   */
  lemma OrderedMeetsUnorderedExactlyWhen(s: Store, c: Contest)
    requires Contended(s, c) && c.one.AccountWide() && OfMembership(c.other)
    requires Ascending(c.first, ByOrganizationThenAccount)
    ensures (exists x: System :: ContestReaches(s, c, x) && Deadlocked(x))
      <==> Owns(s, c.other.org, c.one.account) && exists row :: row in c.second && row.1 < c.second[0].1
  {
    DeadlockExactlyWhenEnteredApart(s, c);
    if Owns(s, c.other.org, c.one.account) {
      OwnedRowsAreShared(s, c);
      var p := LeastComesFirst(s, c);
      assert EnterApart(c) <==> c.first[p] != c.second[0];
    } else {
      NothingIsShared(s, c);
    }
  }

  lemma OwnedRowsAreShared(s: Store, c: Contest)
    requires Contended(s, c) && c.one.AccountWide() && OfMembership(c.other)
    requires Owns(s, c.other.org, c.one.account)
    ensures c.second != [] && FirstShared(c.second, c.first, 0)
    ensures forall row :: row in c.second ==> row in c.first
  {
    assert InLockSet(s, c.other, (c.other.org, c.one.account));
    forall row | row in c.second ensures row in c.first {
      assert InLockSet(s, c.other, row) && InLockSet(s, c.one, row);
    }
    assert c.second[0] in c.second;
  }

  lemma NothingIsShared(s: Store, c: Contest)
    requires Contended(s, c) && c.one.AccountWide() && OfMembership(c.other)
    requires !Owns(s, c.other.org, c.one.account)
    ensures !EnterApart(c)
  {
    forall row | row in c.second ensures row !in c.first {
      assert InLockSet(s, c.other, row) && !InLockSet(s, c.one, row);
    }
  }

  /** In the ordered plan the organization's least owner row comes first among its rows. */
  lemma LeastComesFirst(s: Store, c: Contest) returns (p: nat)
    requires Contended(s, c) && c.one.AccountWide() && OfMembership(c.other)
    requires Ascending(c.first, ByOrganizationThenAccount) && c.second != []
    requires forall row :: row in c.second ==> row in c.first
    ensures FirstShared(c.first, c.second, p)
    ensures c.first[p] != c.second[0] <==> exists row :: row in c.second && row.1 < c.second[0].1
  {
    assert c.second[0] in c.second;
    p := FirstIn(c.first, RowsOf(c.second));
    forall row | row in c.second ensures row.0 == c.other.org && c.first[p].1 <= row.1 {
      assert InLockSet(s, c.other, row) && InLockSet(s, c.other, c.first[p]);
      var k :| 0 <= k < |c.first| && c.first[k] == row;
      assert p < k ==> ByOrganizationThenAccount(c.first[p], c.first[k]);
    }
  }

  // ----- alone, a reduction does what its whole transaction does --------------------------------

  /** The first of the two, alone, holding every row it planned. */
  function AllTaken(s: Store, c: Contest, phase: Phase): System {
    System(s, map[1 := Open(c.one, phase, RowsOf(c.first))], map row | row in RowsOf(c.first) :: 1)
  }

  lemma TakesAll(s: Store, c: Contest)
    requires Contended(s, c)
    ensures ContestReaches(s, c, AllTaken(s, c, Locking([])))
  {
    OneBegins(s, c);
    var x, n := OneOpen(s, c), |c.first|;
    forall i | 0 <= i < n ensures Owns(s, c.first[i].0, c.first[i].1) {
      assert c.first[i] in c.first;
    }
    assert Free(x, 1, n);
    TakesRows(s, c, x, 1, n);
    assert c.first[..n] == c.first && c.first[n..] == [];
    assert {} + RowsOf(c.first) == RowsOf(c.first);
    assert WithRows(x, 1, RowsOf(c.first), []).locks == AllTaken(s, c, Locking([])).locks;
  }

  function OneOpen(s: Store, c: Contest): System {
    System(s, map[1 := Open(c.one, Locking(c.first), {})], map[])
  }

  lemma OneBegins(s: Store, c: Contest)
    requires Contended(s, c)
    ensures ContestReaches(s, c, OneOpen(s, c))
  {
    var x0 := System(s, map[], map[]);
    assert ContestRun([x0], s, c);
    assert Begin(x0, OneOpen(s, c), 1, c.one, c.first);
    ContestReachesOn(s, c, x0, OneOpen(s, c));
  }

  lemma AllTakenAgrees(s: Store, c: Contest)
    ensures LocksAgree(AllTaken(s, c, Locking([])))
  {
  }

  lemma AllTakenIsSafe(s: Store, c: Contest, org: OrgId)
    requires Contended(s, c)
    ensures Safe(AllTaken(s, c, Locking([])), org)
  {
    AllTakenAgrees(s, c);
    assert InLockSet(s, c.one, (org, c.one.account)) ==> (org, c.one.account) in c.first;
  }

  lemma AloneDecides(s: Store, c: Contest)
    requires Contended(s, c) && LinksNameAccounts(s)
    ensures Decide(AllTaken(s, c, Locking([])), AllTaken(s, c, Decided), 1) <==> GuardAccepts(s, c.one)
  {
    var x := AllTaken(s, c, Locking([]));
    forall org ensures Safe(x, org) {
      AllTakenIsSafe(s, c, org);
    }
    DecidesExactlyWhenGuardAccepts(x, 1);
    DecideIsEnabled(x, 1);
    assert AllTaken(s, c, Decided) == x.(txns := x.txns[1 := x.txns[1].(phase := Decided)]);
  }

  /**
   * Alone, whatever order it takes its rows in, a reduction whose guard accepts runs to its end, lets every
   * row go, and leaves what its whole transaction leaves: the protocol refuses nothing it need not refuse.
   */
  lemma WholeTransactionIsARun(s: Store, c: Contest)
    requires Contended(s, c) && LinksNameAccounts(s) && GuardAccepts(s, c.one) && RowIsCurrent(s, c.one)
    ensures ContestReaches(s, c, System(Apply(s, AsTxn(c.one)), map[], map[]))
  {
    var x, y := AllTaken(s, c, Locking([])), AllTaken(s, c, Decided);
    var z := System(Committed(s, c.one), y.txns - {1}, Released(y.locks, 1));
    TakesAll(s, c);
    AloneDecides(s, c);
    ContestReachesOn(s, c, x, y);
    assert Commit(y, z, 1);
    ContestReachesOn(s, c, y, z);
    forall org ensures Safe(y, org) {
      AllTakenIsSafe(s, c, org);
      DecideKeepsSafe(x, y, 1, org);
    }
    CommitIsWholeTransactionExactlyWhen(y, z, 1);
    assert y.txns - {1} == map[] && Released(y.locks, 1) == map[];
  }

  // ----- both answers are met in practice ------------------------------------------------------

  const THREE_OWNERS := EMPTY.(
    accounts := map[1 := Account(Some(1), Some(1), None), 2 := Account(Some(2), Some(2), None),
                    3 := Account(Some(3), Some(3), None)],
    organizations := {5}, memberships := map[(5, 1) := Owner, (5, 2) := Owner, (5, 3) := Owner])

  function DowngradeOf(account: AccountId): Reduction {
    Downgrade(5, account, MembershipEvent(0, 5, account, account, Some(Owner), Some(Member), 0))
  }

  function PlannedAs(a: AccountId, b: AccountId, c: AccountId): seq<Row> {
    [(5, a), (5, b), (5, c)]
  }

  lemma AnyOrderIsPlan(r: Reduction, a: AccountId, b: AccountId, c: AccountId)
    requires {a, b, c} == {1, 2, 3}
    requires r == DISABLING || exists account :: r == DowngradeOf(account)
    ensures IsPlan(THREE_OWNERS, r, PlannedAs(a, b, c))
  {
    assert a != b && b != c && a != c;
    forall row ensures row in PlannedAs(a, b, c) <==> InLockSet(THREE_OWNERS, r, row) {
      assert row.1 in {a, b, c} <==> row.1 in {1, 2, 3};
    }
  }

  /** The one-organization lock fixes no order, and two downgrades in one organization can deadlock. */
  lemma UnorderedLockingCanDeadlock() returns (c: Contest)
    ensures Contended(THREE_OWNERS, c)
    ensures exists x: System :: ContestReaches(THREE_OWNERS, c, x) && Deadlocked(x)
  {
    AnyOrderIsPlan(DowngradeOf(1), 1, 2, 3);
    AnyOrderIsPlan(DowngradeOf(2), 2, 1, 3);
    c := Contest(DowngradeOf(1), PlannedAs(1, 2, 3), DowngradeOf(2), PlannedAs(2, 1, 3));
    TwoChangesDeadlockExactlyWhen(THREE_OWNERS, c);
  }

  /** So can a disablement, which locks in order, and a downgrade of another owner, which does not. */
  lemma MixedLockingCanDeadlock() returns (c: Contest)
    ensures Contended(THREE_OWNERS, c) && c.one.Disable? && c.other.Downgrade?
    ensures Ascending(c.first, ByOrganizationThenAccount)
    ensures exists x: System :: ContestReaches(THREE_OWNERS, c, x) && Deadlocked(x)
  {
    AnyOrderIsPlan(DISABLING, 1, 2, 3);
    AnyOrderIsPlan(DowngradeOf(2), 2, 1, 3);
    c := Contest(DISABLING, PlannedAs(1, 2, 3), DowngradeOf(2), PlannedAs(2, 1, 3));
    assert c.second[1] in c.second;
    OrderedMeetsUnorderedExactlyWhen(THREE_OWNERS, c);
  }

  /** And crossed rows behind a common first row never do. */
  lemma CrossedRowsAreNotEnough() returns (c: Contest)
    ensures Contended(THREE_OWNERS, c) && Crossed(c.first, c.second)
    ensures !exists x: System :: ContestReaches(THREE_OWNERS, c, x) && Deadlocked(x)
  {
    AnyOrderIsPlan(DowngradeOf(1), 3, 1, 2);
    AnyOrderIsPlan(DowngradeOf(2), 3, 2, 1);
    c := Contest(DowngradeOf(1), PlannedAs(3, 1, 2), DowngradeOf(2), PlannedAs(3, 2, 1));
    assert c.first[1] == c.second[2] && c.first[2] == c.second[1];
    TwoChangesDeadlockExactlyWhen(THREE_OWNERS, c);
  }
}
