/**
 * Comparisons: rows grouped by source value, ranked, truncated into one synthetic bucket, and checked
 * to account for every row and every amount.
 */
module Comparisons {
  import opened Collections
  import opened Records
  import opened Labels
  import opened Texts
  import opened Summaries
  import opened Curve
  import opened Aggregates
  import opened Calendar
  import opened Periods

  /** A bucket counts exactly one kind of member: days in a series, transactions in a comparison, or none. */
  datatype Counting = Days | Transactions | Uncounted

  datatype Bucket = Bucket(
    name: string, value: Option<int>, rows: nat, days: Option<nat>, transactions: Option<nat>, sold: bool)

  datatype Comparison = Comparison(
    buckets: seq<Bucket>, distinctValues: nat, truncatedValues: nat, redactedValues: nat,
    distinctTransactions: Option<nat>, incompleteValues: bool, curve: Option<ConcentrationCurve>)

  function BucketOf(s: Summary, name: string, count: Counting): Bucket {
    Bucket(
      name, s.Whole(), s.rows, if count.Days? then Some(|s.keys|) else None,
      if count.Transactions? then Some(|s.keys|) else None, s.saleRow)
  }

  // ----- what a bucket says of its rows, over the rows themselves --------------------------------

  /** The distinct members among the rows of some keys: a member is one however many rows carry it. */
  function MembersOf(rows: seq<Row>, keys: set<Key>): set<Member> {
    set r | r in rows && r.key in keys && r.member.Some? :: r.member.value
  }

  /** How many of the rows carry one of the keys. */
  function RowsWith(rows: seq<Row>, keys: set<Key>): nat {
    |set i | 0 <= i < |rows| && rows[i].key in keys|
  }

  /** What the valued ones among them add up to. */
  function SumWith(rows: seq<Row>, keys: set<Key>): int {
    if rows == [] then 0
    else
      var last := rows[|rows| - 1];
      SumWith(rows[..|rows| - 1], keys) + if last.key in keys && last.value.Some? then last.value.value else 0
  }

  ghost predicate TellsOf(rows: seq<Row>, keys: set<Key>, count: Counting, bucket: Bucket) {
    && bucket.rows == RowsWith(rows, keys)
    && bucket.transactions == (if count.Transactions? then Some(|MembersOf(rows, keys)|) else None)
    && bucket.days == (if count.Days? then Some(|MembersOf(rows, keys)|) else None)
    && bucket.value == (if exists r :: r in rows && r.key in keys && r.value.None? then None
                        else Some(SumWith(rows, keys)))
    && (bucket.sold <==> exists r :: r in rows && r.key in keys && r.sale)
  }

  lemma NextIndex(rows: seq<Row>, keys: set<Key>)
    requires rows != []
    ensures var n := |rows| - 1;
            RowsWith(rows, keys) == RowsWith(rows[..n], keys) + if rows[n].key in keys then 1 else 0
  {
    var n := |rows| - 1;
    var before := set i | 0 <= i < n && rows[..n][i].key in keys;
    var all := set i | 0 <= i < |rows| && rows[i].key in keys;
    assert all == before + if rows[n].key in keys then {n} else {};
  }

  lemma {:induction false} FoldTells(rows: seq<Row>, keys: set<Key>)
    ensures var s := Fold(Of(rows, keys));
            s.rows == RowsWith(rows, keys) && s.total == SumWith(rows, keys) && s.keys == MembersOf(rows, keys)
  {
    var some := Of(rows, keys);
    FoldMarks(some);
    forall m ensures m in Fold(some).keys <==> m in MembersOf(rows, keys) {
      if r :| r in rows && r.key in keys && r.member == Some(m) {
        assert r in some;
      }
    }
    SameMembers(Fold(some).keys, MembersOf(rows, keys));
    FoldCounts(rows, keys);
  }

  lemma {:induction false} FoldCounts(rows: seq<Row>, keys: set<Key>)
    ensures Fold(Of(rows, keys)).rows == RowsWith(rows, keys) && Fold(Of(rows, keys)).total == SumWith(rows, keys)
  {
    if rows == [] {
    } else {
      FoldCounts(rows[..|rows| - 1], keys);
      NextIndex(rows, keys);
      FoldOfNext(rows, keys);
    }
  }

  /** What the buckets of a comparison say: each kept key's rows, and all the dropped keys' rows together. */
  ghost predicate BucketsTell(rows: seq<Row>, count: Counting, order: seq<Key>, n: nat, buckets: seq<Bucket>) {
    && n <= |order| && |buckets| == n + (if n < |order| then 1 else 0)
    && (forall i :: 0 <= i < n ==> TellsOf(rows, {order[i]}, count, buckets[i]))
    && (n < |order| ==> TellsOf(rows, KeySet(order[n..]), count, buckets[n]))
  }

  lemma DescribedBucketsTell(
      rows: seq<Row>, count: Counting, order: seq<Key>, labels: map<Key, string>, n: nat, buckets: seq<Bucket>)
    requires Groups(rows, order) && forall key :: key in order ==> key in labels
    requires Describes(rows, count, order, labels, n, buckets)
    ensures BucketsTell(rows, count, order, n, buckets)
  {
    forall i | 0 <= i < n ensures TellsOf(rows, {order[i]}, count, buckets[i]) {
      assert order[i] in order;
      BucketTells(rows, {order[i]}, labels[order[i]], count);
    }
    if n < |order| {
      SplitKeys(order, n);
      BucketTells(rows, KeySet(order[n..]), OTHER, count);
    }
  }

  lemma BucketTells(rows: seq<Row>, keys: set<Key>, name: string, count: Counting)
    requires exists r :: r in rows && r.key in keys
    ensures TellsOf(rows, keys, count, BucketOf(Fold(Of(rows, keys)), name, count))
  {
    var some := Of(rows, keys);
    FoldMarks(some);
    FoldTells(rows, keys);
    var r :| r in rows && r.key in keys;
    assert r in some;
  }

  function KeySet(keys: seq<Key>): (s: set<Key>)
    ensures forall key :: key in s <==> key in keys
  {
    set key | key in keys
  }

  /** How many of `n` a Python slice `[:limit]` keeps. */
  function KeptOf(n: nat, limit: int): (kept: nat)
    ensures kept <= n
  {
    if limit >= 0 then if limit < n then limit else n
    else if n + limit > 0 then n + limit else 0
  }

  // ----- reconciliation ------------------------------------------------------------------------

  function RowsIn(buckets: seq<Bucket>): nat {
    if buckets == [] then 0 else RowsIn(buckets[..|buckets| - 1]) + buckets[|buckets| - 1].rows
  }

  function AmountIn(buckets: seq<Bucket>): int {
    if buckets == [] then 0 else AmountIn(buckets[..|buckets| - 1]) + Amount(buckets[|buckets| - 1].value)
  }

  predicate Reconciles(buckets: seq<Bucket>, total: Option<int>, rowsTotal: nat, gapped: bool) {
    if RowsIn(buckets) != rowsTotal then false
    else if gapped then true
    else if total.None? then forall i :: 0 <= i < |buckets| ==> buckets[i].value.None?
    else AmountIn(buckets) == total.value
  }

  /** One bucket differs, in its rows or in its amount. */
  predicate DiffersAt(before: seq<Bucket>, after: seq<Bucket>, i: nat) {
    && i < |before| == |after| && (forall j :: 0 <= j < |before| && j != i ==> after[j] == before[j])
  }

  lemma {:induction false} SumsDiffer(before: seq<Bucket>, after: seq<Bucket>, i: nat)
    requires DiffersAt(before, after, i)
    ensures RowsIn(after) - RowsIn(before) == after[i].rows - before[i].rows
    ensures AmountIn(after) - AmountIn(before) == Amount(after[i].value) - Amount(before[i].value)
  {
    var n := |before| - 1;
    if i == n {
      assert before[..n] == after[..n];
    } else {
      SumsDiffer(before[..n], after[..n], i);
    }
  }

  /** The check is no rubber stamp: a bucket that gains or loses a row, or any amount, no longer passes. */
  lemma ReconciliationCatches(
      before: seq<Bucket>, after: seq<Bucket>, i: nat, total: Option<int>, rowsTotal: nat, gapped: bool)
    requires DiffersAt(before, after, i) && Reconciles(before, total, rowsTotal, gapped)
    ensures Reconciles(after, total, rowsTotal, gapped) <==>
      && after[i].rows == before[i].rows
      && (gapped || (if total.None? then after[i].value.None? else Amount(after[i].value) == Amount(before[i].value)))
  {
    SumsDiffer(before, after, i);
  }

  /** What the first `n` groups of an order, and the rest folded into one, publish. */
  ghost predicate Describes(
      rows: seq<Row>, count: Counting, order: seq<Key>, labels: map<Key, string>, n: nat, buckets: seq<Bucket>)
    requires forall key :: key in order ==> key in labels
  {
    && n <= |order| && |buckets| == n + (if n < |order| then 1 else 0)
    && (forall i :: 0 <= i < n ==> buckets[i] == BucketOf(Fold(Of(rows, {order[i]})), labels[order[i]], count))
    && (n < |order| ==> buckets[n] == BucketOf(Fold(Of(rows, KeySet(order[n..]))), OTHER, count))
  }

  /** The groups of an order of distinct keys: all the keys there are, and only keys there are. */
  ghost predicate Groups(rows: seq<Row>, order: seq<Key>) {
    && Distinct(order) && forall key :: key in order <==> exists r :: r in rows && r.key == key
  }

  predicate Complete(rows: seq<Row>) {
    forall i :: 0 <= i < |rows| ==> rows[i].value.Some?
  }

  predicate Unmapped(rows: seq<Row>) {
    forall i :: 0 <= i < |rows| ==> rows[i].value.None?
  }

  /** Buckets hold what the rows of some keys hold. */
  ghost predicate Accounts(rows: seq<Row>, keys: set<Key>, buckets: seq<Bucket>) {
    var s := Fold(Of(rows, keys));
    && RowsIn(buckets) == s.rows
    && (Complete(rows) ==> AmountIn(buckets) == s.total)
    && (Unmapped(rows) ==> forall bucket :: bucket in buckets ==> bucket.value.None?)
  }

  ghost predicate AccountsFor(rows: seq<Row>, keys: set<Key>, bucket: Bucket) {
    && bucket.rows == Fold(Of(rows, keys)).rows
    && (Complete(rows) ==> Amount(bucket.value) == Fold(Of(rows, keys)).total)
    && (Unmapped(rows) ==> bucket.value.None?)
  }

  lemma BucketAccounts(rows: seq<Row>, keys: set<Key>, name: string, count: Counting)
    requires exists r :: r in rows && r.key in keys
    ensures AccountsFor(rows, keys, BucketOf(Fold(Of(rows, keys)), name, count))
  {
    var some := Of(rows, keys);
    FoldMarks(some);
    var r :| r in rows && r.key in keys;
    assert r in some;
    if Complete(rows) {
      assert forall each :: each in some ==> each in rows && each.value.Some?;
    }
    if Unmapped(rows) {
      assert forall each :: each in some ==> each in rows && each.value.None?;
    }
  }

  lemma OneBucketMore(buckets: seq<Bucket>, bucket: Bucket)
    ensures RowsIn(buckets + [bucket]) == RowsIn(buckets) + bucket.rows
    ensures AmountIn(buckets + [bucket]) == AmountIn(buckets) + Amount(bucket.value)
  {
    assert (buckets + [bucket])[..|buckets|] == buckets;
  }

  lemma AmountsMerge(rows: seq<Row>, a: set<Key>, b: set<Key>)
    requires a !! b
    ensures Fold(Of(rows, a + b)).rows == Fold(Of(rows, a)).rows + Fold(Of(rows, b)).rows
    ensures Fold(Of(rows, a + b)).total == Fold(Of(rows, a)).total + Fold(Of(rows, b)).total
  {
    GroupsMerge(rows, a, b);
  }

  /** One bucket more, for keys not yet accounted for. */
  lemma AccountsForMore(rows: seq<Row>, a: set<Key>, b: set<Key>, buckets: seq<Bucket>, bucket: Bucket)
    requires Accounts(rows, a, buckets) && a !! b && AccountsFor(rows, b, bucket)
    ensures Accounts(rows, a + b, buckets + [bucket])
  {
    OneBucketMore(buckets, bucket);
    AmountsMerge(rows, a, b);
    assert forall each :: each in buckets + [bucket] <==> each in buckets || each == bucket;
  }

  lemma AddKey(order: seq<Key>, n: nat)
    requires Distinct(order) && 0 < n <= |order|
    ensures KeySet(order[..n]) == KeySet(order[..n - 1]) + {order[n - 1]} && KeySet(order[..n - 1]) !! {order[n - 1]}
    ensures order[n - 1] in order
  {
    assert order[..n] == order[..n - 1] + [order[n - 1]];
  }

  lemma NoKeys(order: seq<Key>)
    ensures KeySet(order[..0]) == {}
  {
  }

  lemma SplitKeys(order: seq<Key>, n: nat)
    requires Distinct(order) && n < |order|
    ensures KeySet(order) == KeySet(order[..n]) + KeySet(order[n..]) && KeySet(order[..n]) !! KeySet(order[n..])
    ensures order[n] in order && order[n] in KeySet(order[n..])
  {
    assert order == order[..n] + order[n..];
  }

  /** The first `n` buckets together hold what the rows of their keys hold. */
  lemma {:induction false} KeptBucketsAccount(
      rows: seq<Row>, count: Counting, order: seq<Key>, labels: map<Key, string>, n: nat, buckets: seq<Bucket>)
    requires forall key :: key in order ==> key in labels
    requires Groups(rows, order) && n <= |order| && |buckets| == n
    requires forall i :: 0 <= i < n ==> buckets[i] == BucketOf(Fold(Of(rows, {order[i]})), labels[order[i]], count)
    ensures Accounts(rows, KeySet(order[..n]), buckets)
  {
    if n == 0 {
      NoKeys(order);
      OfNothing(rows);
    } else {
      KeptBucketsAccount(rows, count, order, labels, n - 1, buckets[..n - 1]);
      AddKey(order, n);
      BucketAccounts(rows, {order[n - 1]}, labels[order[n - 1]], count);
      AccountsForMore(rows, KeySet(order[..n - 1]), {order[n - 1]}, buckets[..n - 1], buckets[n - 1]);
      FrontAndLast(buckets);
    }
  }

  lemma AllBucketsAccount(
      rows: seq<Row>, count: Counting, order: seq<Key>, labels: map<Key, string>, n: nat, buckets: seq<Bucket>)
    requires forall key :: key in order ==> key in labels
    requires Groups(rows, order) && Describes(rows, count, order, labels, n, buckets)
    ensures Accounts(rows, KeySet(order), buckets)
  {
    KeptBucketsAccount(rows, count, order, labels, n, buckets[..n]);
    if n < |order| {
      SplitKeys(order, n);
      BucketAccounts(rows, KeySet(order[n..]), OTHER, count);
      AccountsForMore(rows, KeySet(order[..n]), KeySet(order[n..]), buckets[..n], buckets[n]);
      FrontAndLast(buckets);
    } else {
      WholeSlice(order);
      WholeSlice(buckets);
    }
  }

  /**
   * However rows are ordered, labelled, ranked and truncated, the published buckets account for every
   * row; for the whole amount when every row has one; and for none when no row does.
   */
  lemma ComparisonsReconcile(
      rows: seq<Row>, count: Counting, order: seq<Key>, labels: map<Key, string>, n: nat, buckets: seq<Bucket>)
    requires forall key :: key in order ==> key in labels
    requires Groups(rows, order) && Describes(rows, count, order, labels, n, buckets)
    ensures Complete(rows) ==> Reconciles(buckets, Some(SumOf(rows, false)), |rows|, false)
    ensures Unmapped(rows) ==> Reconciles(buckets, None, |rows|, false)
    ensures forall total :: Reconciles(buckets, total, |rows|, true)
  {
    AllBucketsAccount(rows, count, order, labels, n, buckets);
    OfEverything(rows, KeySet(order));
    FoldAdds(rows);
  }

  // ----- the passes of the program -------------------------------------------------------------

  /** Accumulators of distinct groups are distinct objects, each holding the fold of its group's rows. */
  ghost predicate Tallied(rows: seq<Row>, groups: map<Key, Accumulator>)
    reads groups.Values
  {
    && (forall a, b :: a in groups && b in groups && a != b ==> groups[a] != groups[b])
    && (forall key :: key in groups ==> groups[key].State() == Fold(Of(rows, {key})))
  }

  lemma NextRow(rows: seq<Row>, row: Row, key: Key)
    ensures Fold(Of(rows + [row], {key}))
      == if row.key == key then Join(Fold(Of(rows, {key})), One(row)) else Fold(Of(rows, {key}))
  {
    FoldOfNext(rows + [row], {key});
    assert (rows + [row])[..|rows|] == rows;
  }

  lemma {:induction false} NewKeyHasNoRows(rows: seq<Row>, key: Key)
    requires forall r :: r in rows ==> r.key != key
    ensures Of(rows, {key}) == []
  {
    if rows == [] {
    } else {
      NewKeyHasNoRows(rows[..|rows| - 1], key);
    }
  }

  lemma KeysSoFar(rows: seq<Row>, order: seq<Key>, row: Row)
    requires Groups(rows, order)
    ensures Groups(rows + [row], if row.key in order then order else order + [row.key])
  {
    var longer := if row.key in order then order else order + [row.key];
    forall key ensures key in longer <==> exists r :: r in rows + [row] && r.key == key {
      if key in order {
        var r :| r in rows && r.key == key;
        assert r in rows + [row];
      } else if key == row.key {
        assert row in rows + [row];
      }
    }
  }

  /** The accumulator of a key, made when the key is first met. */
  method SetDefault(groups: map<Key, Accumulator>, key: Key, ghost rows: seq<Row>)
    returns (more: map<Key, Accumulator>)
    requires Tallied(rows, groups) && (key in groups || forall r :: r in rows ==> r.key != key)
    ensures Tallied(rows, more) && forall each :: each in more <==> each in groups || each == key
    ensures forall each :: each in more ==> fresh(more[each]) || (each in groups && more[each] == groups[each])
  {
    more := groups;
    if key !in groups {
      var accumulator := new Accumulator();
      NewKeyHasNoRows(rows, key);
      more := groups[key := accumulator];
    }
  }

  method AddTo(groups: map<Key, Accumulator>, row: Row, ghost rows: seq<Row>)
    requires Tallied(rows, groups) && row.key in groups
    modifies groups[row.key]
    ensures Tallied(rows + [row], groups)
  {
    groups[row.key].Add(row);
    forall key | key in groups ensures groups[key].State() == Fold(Of(rows + [row], {key})) {
      NextRow(rows, row, key);
    }
  }

  method Group(rows: seq<Row>) returns (groups: map<Key, Accumulator>, order: seq<Key>)
    ensures Groups(rows, order) && forall key :: key in groups <==> key in order
    ensures Tallied(rows, groups) && forall key :: key in groups ==> fresh(groups[key])
  {
    groups, order := map[], [];
    for i := 0 to |rows|
      invariant Groups(rows[..i], order) && forall key :: key in groups <==> key in order
      invariant Tallied(rows[..i], groups) && forall key :: key in groups ==> fresh(groups[key])
    {
      var row := rows[i];
      KeysSoFar(rows[..i], order, row);
      NextPrefix(rows, i);
      var known := row.key in groups;
      groups := SetDefault(groups, row.key, rows[..i]);
      AddTo(groups, row, rows[..i]);
      if !known {
        order := order + [row.key];
      }
    }
    WholeSlice(rows);
  }

  lemma NextGroup(rows: seq<Row>, keys: seq<Key>, i: nat)
    requires Distinct(keys) && i < |keys|
    ensures keys[i] in keys
    ensures Fold(Of(rows, KeySet(keys[..i + 1]))) == Join(Fold(Of(rows, KeySet(keys[..i]))), Fold(Of(rows, {keys[i]})))
  {
    AddKey(keys, i + 1);
    GroupsMerge(rows, KeySet(keys[..i]), {keys[i]});
  }

  ghost predicate Apart(accumulator: Accumulator, groups: map<Key, Accumulator>) {
    forall key :: key in groups ==> groups[key] != accumulator
  }

  method MergeGroup(remainder: Accumulator, groups: map<Key, Accumulator>, key: Key, ghost rows: seq<Row>)
    requires Tallied(rows, groups) && Apart(remainder, groups) && key in groups
    modifies remainder
    ensures Tallied(rows, groups) && remainder.State() == Join(old(remainder.State()), Fold(Of(rows, {key})))
  {
    remainder.Merge(groups[key]);
    assert forall each :: each in groups ==> groups[each].State() == old(groups[each].State());
  }

  /** The dropped groups folded into one, their members united. */
  method MergeDropped(groups: map<Key, Accumulator>, dropped: seq<Key>, ghost rows: seq<Row>)
    returns (remainder: Accumulator)
    requires Tallied(rows, groups) && Distinct(dropped) && forall key :: key in dropped ==> key in groups
    ensures fresh(remainder) && remainder.State() == Fold(Of(rows, KeySet(dropped)))
  {
    remainder := new Accumulator();
    NoKeys(dropped);
    OfNothing(rows);
    for i := 0 to |dropped|
      invariant Apart(remainder, groups)
      invariant Tallied(rows, groups) && remainder.State() == Fold(Of(rows, KeySet(dropped[..i])))
    {
      NextGroup(rows, dropped, i);
      MergeGroup(remainder, groups, dropped[i], rows);
    }
    WholeSlice(dropped);
  }

  method ValueBucket(
      groups: map<Key, Accumulator>, key: Key, name: string, count: Counting, ghost rows: seq<Row>)
    returns (bucket: Bucket)
    requires Tallied(rows, groups) && key in groups
    ensures bucket == BucketOf(Fold(Of(rows, {key})), name, count)
  {
    bucket := BucketOf(groups[key].State(), name, count);
  }

  method PublishKept(
      groups: map<Key, Accumulator>, order: seq<Key>, labels: map<Key, string>, count: Counting, n: nat,
      ghost rows: seq<Row>) returns (buckets: seq<Bucket>)
    requires Tallied(rows, groups) && n <= |order|
    requires forall key :: key in order ==> key in groups && key in labels
    ensures |buckets| == n
    ensures forall i :: 0 <= i < n ==> buckets[i] == BucketOf(Fold(Of(rows, {order[i]})), labels[order[i]], count)
  {
    buckets := [];
    ghost var kept := KeptBuckets(rows, order, labels, count, n);
    for i := 0 to n
      invariant buckets == kept[..i]
    {
      assert order[i] in order;
      var bucket := ValueBucket(groups, order[i], labels[order[i]], count, rows);
      NextPrefix(kept, i);
      buckets := buckets + [bucket];
    }
    WholeSlice(kept);
  }

  ghost function KeptBuckets(
      rows: seq<Row>, order: seq<Key>, labels: map<Key, string>, count: Counting, n: nat): (kept: seq<Bucket>)
    requires n <= |order| && forall key :: key in order ==> key in labels
    ensures |kept| == n
    ensures forall i :: 0 <= i < n ==> kept[i] == BucketOf(Fold(Of(rows, {order[i]})), labels[order[i]], count)
  {
    seq(n, i requires 0 <= i < n => BucketOf(Fold(Of(rows, {order[i]})), labels[order[i]], count))
  }

  method PublishBuckets(
      groups: map<Key, Accumulator>, order: seq<Key>, labels: map<Key, string>, count: Counting, n: nat,
      ghost rows: seq<Row>) returns (buckets: seq<Bucket>)
    requires Tallied(rows, groups) && Distinct(order) && n <= |order|
    requires forall key :: key in order ==> key in groups && key in labels
    ensures Describes(rows, count, order, labels, n, buckets)
  {
    buckets := PublishKept(groups, order, labels, count, n, rows);
    if n < |order| {
      Suffixes(order, n);
      var remainder := MergeDropped(groups, order[n..], rows);
      buckets := buckets + [BucketOf(remainder.State(), OTHER, count)];
    }
  }

  lemma Suffixes(order: seq<Key>, n: nat)
    requires Distinct(order) && n <= |order|
    ensures Distinct(order[n..]) && forall key :: key in order[n..] ==> key in order
  {
  }

  // ----- a whole comparison --------------------------------------------------------------------

  type States = map<Key, Summary>

  function SummaryOf(rows: seq<Row>, key: Key): Summary {
    Fold(Of(rows, {key}))
  }

  ghost predicate StatesOf(rows: seq<Row>, order: seq<Key>, states: States) {
    forall key :: key in order ==> key in states && states[key] == SummaryOf(rows, key)
  }

  /** The keys some posted sale landed on. */
  function SoldKeys(order: seq<Key>, states: States): (sold: seq<Key>)
    requires Distinct(order) && forall key :: key in order ==> key in states
    ensures Distinct(sold) && forall key :: key in sold <==> key in order && states[key].saleRow
  {
    if order == [] then [] else
      assert order == order[..|order| - 1] + [order[|order| - 1]];
      SoldKeys(order[..|order| - 1], states) + if states[order[|order| - 1]].saleRow then [order[|order| - 1]] else []
  }

  function SaleTotals(keys: seq<Key>, states: States): map<Key, int>
    requires forall key :: key in keys ==> key in states
  {
    map key | key in keys :: states[key].saleTotal
  }

  function Totals(keys: seq<Key>, states: States): map<Key, int>
    requires forall key :: key in keys ==> key in states
  {
    map key | key in keys :: states[key].total
  }

  /** The sold keys, by posted-sale revenue. */
  function SaleRanking(order: seq<Key>, states: States, labels: map<Key, string>): (ranking: seq<Key>)
    requires Distinct(order) && forall key :: key in order ==> key in states && key in labels
    ensures forall key :: key in ranking <==> key in order && states[key].saleRow
    ensures |ranking| == |SoldKeys(order, states)|
  {
    var sold := SoldKeys(order, states);
    Ordering(SaleTotals(sold, states), labels, sold)
  }

  function InOrder(keys: seq<Key>, states: States): seq<Summary>
    requires forall key :: key in keys ==> key in states
  {
    seq(|keys|, i requires 0 <= i < |keys| => states[keys[i]])
  }

  lemma SaleRankingFalls(order: seq<Key>, states: States, labels: map<Key, string>)
    requires Distinct(order) && forall key :: key in order ==> key in states && key in labels
    ensures var ranked := InOrder(SaleRanking(order, states, labels), states);
            forall i, j :: 0 <= i < j < |ranked| ==> ranked[i].saleTotal >= ranked[j].saleTotal
  {
    var sold := SoldKeys(order, states);
    var totals, ranking := SaleTotals(sold, states), SaleRanking(order, states, labels);
    OrderingSorts(totals, labels, sold);
    forall i, j | 0 <= i < j < |ranking| ensures states[ranking[i]].saleTotal >= states[ranking[j]].saleTotal {
      assert Precedes(totals, labels, ranking[i], ranking[j]);
    }
  }

  lemma RankedIsSold(rows: seq<Row>, order: seq<Key>, states: States, labels: map<Key, string>, i: nat)
    requires Distinct(order) && StatesOf(rows, order, states) && forall key :: key in order ==> key in labels
    requires i < |SaleRanking(order, states, labels)|
    ensures var s := states[SaleRanking(order, states, labels)[i]]; s.saleRow && exists some :: s == Fold(some)
  {
    var key := SaleRanking(order, states, labels)[i];
    assert key in SaleRanking(order, states, labels);
    assert states[key] == Fold(Of(rows, {key}));
  }

  /** Re-rank on posted-sale revenue and draw the curve over every value a sale landed on. */
  method DrawCurve(order: seq<Key>, states: States, labels: map<Key, string>, ghost rows: seq<Row>)
    returns (curve: Option<ConcentrationCurve>)
    requires Distinct(order) && StatesOf(rows, order, states) && forall key :: key in order ==> key in labels
    ensures CurveFor(InOrder(SaleRanking(order, states, labels), states), curve)
    ensures curve.Some? <==> Statable(InOrder(SaleRanking(order, states, labels), states))
    ensures curve.Some? ==> Shaped(curve.value) && curve.value.distinctValues == |SoldKeys(order, states)|
  {
    var ranked := InOrder(SaleRanking(order, states, labels), states);
    curve := CurveOf(ranked);
    if curve.Some? {
      SaleRankingFalls(order, states, labels);
      forall i: nat | i < |ranked| ensures Sold(ranked[i]) {
        RankedIsSold(rows, order, states, labels, i);
      }
      CurvesAreShaped(ranked, curve.value);
    }
  }

  /** Every member of every group, once. */
  function Members(order: seq<Key>, states: States): set<Member>
    requires forall key :: key in order ==> key in states
  {
    set key, m | key in order && m in states[key].keys :: m
  }

  /** Uniting the groups' members gives the members of all the rows, however many groups share one. */
  lemma MembersAreAllMembers(rows: seq<Row>, order: seq<Key>, states: States)
    requires Groups(rows, order) && StatesOf(rows, order, states)
    ensures Members(order, states) == Fold(rows).keys
  {
    FoldMarks(rows);
    forall m ensures m in Members(order, states) <==> m in Fold(rows).keys {
      if key :| key in order && m in states[key].keys {
        FoldMarks(Of(rows, {key}));
      }
      if r :| r in rows && r.member == Some(m) {
        FoldMarks(Of(rows, {r.key}));
        assert r in Of(rows, {r.key}) && r.key in order;
      }
    }
  }

  /** A sale landed on no value exactly when some posted sale's row carries none. */
  lemma IncompleteMeans(rows: seq<Row>, order: seq<Key>, states: States)
    requires Groups(rows, order) && StatesOf(rows, order, states)
    ensures None in order && states[None].saleRow <==> exists r :: r in rows && r.key.None? && r.sale
  {
    FoldMarks(Of(rows, {None}));
    if r :| r in rows && r.key.None? && r.sale {
      assert r in Of(rows, {None});
    }
  }

  ghost predicate NamesDiffer(buckets: seq<Bucket>) {
    forall i, j :: 0 <= i < j < |buckets| ==> buckets[i].name != buckets[j].name
  }

  ghost predicate LargestFirst(rows: seq<Row>, order: seq<Key>) {
    forall i, j :: 0 <= i < j < |order| ==> SummaryOf(rows, order[i]).total >= SummaryOf(rows, order[j]).total
  }

  lemma NamesStandApart(
      rows: seq<Row>, count: Counting, order: seq<Key>, labels: map<Key, string>, n: nat, buckets: seq<Bucket>)
    requires Distinct(order) && Injective(labels) && forall key :: key in order ==> key in labels
    requires (forall key :: key in labels ==> labels[key] != OTHER) && Describes(rows, count, order, labels, n, buckets)
    ensures NamesDiffer(buckets)
  {
    forall i, j | 0 <= i < j < |buckets| ensures buckets[i].name != buckets[j].name {
      assert order[i] in order;
      if j < n {
        assert order[j] in order;
      }
    }
  }

  function Counted(counted: bool): Counting {
    if counted then Transactions else Uncounted
  }

  /** The counts a comparison carries are counts of the rows and the keys. */
  ghost predicate Counts(
      rows: seq<Row>, counted: bool, rendering: Rendering, order: seq<Key>, n: nat, comparison: Comparison)
  {
    && comparison.distinctValues == |order| && comparison.truncatedValues == |order| - n
    && comparison.redactedValues == |set key | key in order && rendering.Redacts(key)|
    && comparison.distinctTransactions == (if counted then Some(|Fold(rows).keys|) else None)
    && (comparison.incompleteValues <==> exists r :: r in rows && r.key.None? && r.sale)
  }

  function StatesFrom(rows: seq<Row>, order: seq<Key>): (states: States)
    ensures forall key :: key in states <==> key in order
  {
    map key | key in order :: SummaryOf(rows, key)
  }

  /** The curve is the one its rows, their ranking and the labels' order of ties give. */
  ghost predicate DrawnFrom(rows: seq<Row>, order: seq<Key>, labels: map<Key, string>, comparison: Comparison) {
    && Distinct(order) && (forall key :: key in order ==> key in labels)
    && var states := StatesFrom(rows, order);
       CurveFor(InOrder(SaleRanking(order, states, labels), states), comparison.curve)
  }

  lemma StatesAreOne(rows: seq<Row>, order: seq<Key>, states: States)
    requires StatesOf(rows, order, states) && forall key :: key in states ==> key in order
    ensures states == StatesFrom(rows, order)
  {
  }

  method Assemble(
      groups: map<Key, Accumulator>, order: seq<Key>, states: States, labels: map<Key, string>, counted: bool,
      rendering: Rendering, n: nat, ghost rows: seq<Row>) returns (comparison: Comparison)
    requires Tallied(rows, groups) && Groups(rows, order) && StatesOf(rows, order, states) && n <= |order|
    requires forall key :: key in order ==> key in groups && key in labels
    requires forall key :: key in states ==> key in order
    ensures Describes(rows, Counted(counted), order, labels, n, comparison.buckets)
    ensures DrawnFrom(rows, order, labels, comparison)
    ensures Counts(rows, counted, rendering, order, n, comparison)
    ensures comparison.curve.Some? ==> Shaped(comparison.curve.value)
  {
    var buckets := PublishBuckets(groups, order, labels, Counted(counted), n, rows);
    MembersAreAllMembers(rows, order, states);
    IncompleteMeans(rows, order, states);
    StatesAreOne(rows, order, states);
    var curve := DrawCurve(order, states, labels, rows);
    comparison := Comparison(
      buckets, |order|, |order| - n, |set key | key in order && rendering.Redacts(key)|,
      if counted then Some(|Members(order, states)|) else None, None in order && states[None].saleRow, curve);
  }

  /** No source value shows a synthetic or a generated label; rows without a value show only their own. */
  ghost predicate LabelsKeepApart(labels: map<Key, string>, rendering: Rendering) {
    && (None in labels ==> labels[None] == UNLABELLED)
    && forall key :: key in labels && key.Some? && !rendering.Redacts(key) ==> !rendering.Claimed(labels[key])
  }

  /**
   * Group, label, rank, truncate, fold the rest, and draw the curve before truncation loses it. The
   * `order` and `labels` say which key each published bucket stands for.
   */
  method BuildComparison(rows: seq<Row>, counted: bool, rendering: Rendering, limit: int)
    returns (comparison: Comparison, order: seq<Key>, labels: map<Key, string>)
    requires rendering.Plausible()
    ensures Groups(rows, order) && forall key :: key in labels <==> key in order
    ensures Describes(rows, Counted(counted), order, labels, KeptOf(|order|, limit), comparison.buckets)
    ensures NamesDiffer(comparison.buckets) && LargestFirst(rows, order) && LabelsKeepApart(labels, rendering)
    ensures ComparisonTells(
              rows, counted, order, labels, if limit < 0 then Largest(0, |order| + limit) else Least(|order|, limit),
              comparison)
    ensures Counts(rows, counted, rendering, order, KeptOf(|order|, limit), comparison)
    ensures comparison.curve.Some? ==> Shaped(comparison.curve.value)
    ensures Built(rows, counted, rendering, limit, comparison, order, labels)
    ensures Complete(rows) ==> Reconciles(comparison.buckets, Some(SumOf(rows, false)), |rows|, false)
    ensures Unmapped(rows) ==> Reconciles(comparison.buckets, None, |rows|, false)
    ensures Reconciles(comparison.buckets, None, |rows|, true)
  {
    var groups, met := Group(rows);
    var states := map key | key in groups :: groups[key].State();
    labels := LabelAll(met, rendering);
    order := Ordering(Totals(met, states), labels, met);
    OrderingSorts(Totals(met, states), labels, met);
    OrderFalls(rows, met, order, states, labels);
    SameTotals(rows, met, order, states);
    comparison := Assemble(groups, order, states, labels, counted, rendering, KeptOf(|order|, limit), rows);
    NamesStandApart(rows, Counted(counted), order, labels, KeptOf(|order|, limit), comparison.buckets);
    ComparisonsReconcile(rows, Counted(counted), order, labels, KeptOf(|order|, limit), comparison.buckets);
    DescribedComparisonTells(rows, counted, rendering, order, labels, KeptOf(|order|, limit), comparison);
  }

  /** The whole comparison over its rows: `kept` keys by name, the rest as `other`, and the counts. */
  ghost predicate ComparisonTells(
      rows: seq<Row>, counted: bool, order: seq<Key>, labels: map<Key, string>, kept: int, comparison: Comparison)
  {
    && 0 <= kept <= |order|
    && BucketsTell(rows, if counted then Transactions else Uncounted, order, kept, comparison.buckets)
    && (forall i :: 0 <= i < kept ==> order[i] in labels && comparison.buckets[i].name == labels[order[i]])
    && (kept < |order| ==> comparison.buckets[kept].name == "other")
    && comparison.truncatedValues == |order| - kept && comparison.distinctValues == |order|
    && comparison.distinctTransactions == (if counted then Some(|MembersOf(rows, KeySet(order))|) else None)
  }

  lemma DescribedComparisonTells(
      rows: seq<Row>, counted: bool, rendering: Rendering, order: seq<Key>, labels: map<Key, string>, n: nat,
      comparison: Comparison)
    requires Groups(rows, order) && forall key :: key in order ==> key in labels
    requires Describes(rows, Counted(counted), order, labels, n, comparison.buckets)
    requires Counts(rows, counted, rendering, order, n, comparison)
    ensures ComparisonTells(rows, counted, order, labels, n, comparison)
  {
    DescribedBucketsTell(rows, Counted(counted), order, labels, n, comparison.buckets);
    OfEverything(rows, KeySet(order));
    FoldTells(rows, KeySet(order));
    forall i | 0 <= i < n ensures order[i] in labels {
      assert order[i] in order;
    }
  }

  function Least(a: int, b: int): int {
    if a <= b then a else b
  }

  function Largest(a: int, b: int): int {
    if a >= b then a else b
  }

  // ----- rows in another order -----------------------------------------------------------------

  /** Everything that fixes a comparison: its labels' turns, its ranking, and what each bucket holds. */
  ghost predicate Built(
      rows: seq<Row>, counted: bool, rendering: Rendering, limit: int, comparison: Comparison, order: seq<Key>,
      labels: map<Key, string>)
  {
    && Groups(rows, order) && (forall key :: key in labels <==> key in order)
    && (exists met :: Groups(rows, met) && Labelled(met, rendering, labels))
    && Sorted(Totals(order, StatesFrom(rows, order)), labels, order)
    && Describes(rows, Counted(counted), order, labels, KeptOf(|order|, limit), comparison.buckets)
    && Counts(rows, counted, rendering, order, KeptOf(|order|, limit), comparison)
    && DrawnFrom(rows, order, labels, comparison)
  }

  /** How often a row is among those of some keys: as often as it is there at all, or never. */
  lemma {:induction false} TimesAmong(rows: seq<Row>, keys: set<Key>, row: Row)
    ensures multiset(Of(rows, keys))[row] == if row.key in keys then multiset(rows)[row] else 0
  {
    if rows == [] {
    } else {
      TimesAmong(rows[..|rows| - 1], keys, row);
      FrontAndLast(rows);
    }
  }

  /** Rows in any order give each set of keys the same summary. */
  lemma SummariesIgnoreOrder(xs: seq<Row>, ys: seq<Row>, keys: set<Key>)
    requires multiset(xs) == multiset(ys)
    ensures Fold(Of(xs, keys)) == Fold(Of(ys, keys)) && Fold(xs) == Fold(ys)
  {
    forall row ensures multiset(Of(xs, keys))[row] == multiset(Of(ys, keys))[row] {
      TimesAmong(xs, keys, row);
      TimesAmong(ys, keys, row);
    }
    FoldIgnoresOrder(Of(xs, keys), Of(ys, keys));
    FoldIgnoresOrder(xs, ys);
  }

  lemma SameRows(xs: seq<Row>, ys: seq<Row>, row: Row)
    requires multiset(xs) == multiset(ys)
    ensures row in xs <==> row in ys
  {
    assert row in xs <==> row in multiset(xs);
    assert row in ys <==> row in multiset(ys);
  }

  lemma HasKey(xs: seq<Row>, ys: seq<Row>, key: Key)
    requires multiset(xs) == multiset(ys)
    ensures (exists r :: r in xs && r.key == key) ==> exists r :: r in ys && r.key == key
  {
    if r :| r in xs && r.key == key {
      SameRows(xs, ys, r);
    }
  }

  lemma SameGroups(xs: seq<Row>, ys: seq<Row>, order: seq<Key>, order': seq<Key>)
    requires multiset(xs) == multiset(ys) && Groups(xs, order) && Groups(ys, order')
    ensures SameKeys(order, order') && |order| == |order'|
  {
    forall key ensures key in order <==> key in order' {
      HasKey(xs, ys, key);
      HasKey(ys, xs, key);
    }
    SameSize(order, order');
  }

  lemma SameSize(order: seq<Key>, order': seq<Key>)
    requires SameKeys(order, order')
    ensures |order| == |order'|
  {
    DistinctSize(order);
    DistinctSize(order');
    assert KeySet(order) == KeySet(order');
  }

  lemma SameStates(xs: seq<Row>, ys: seq<Row>, order: seq<Key>, order': seq<Key>)
    requires multiset(xs) == multiset(ys) && SameKeys(order, order')
    ensures StatesFrom(xs, order) == StatesFrom(ys, order')
  {
    forall key | key in order ensures SummaryOf(xs, key) == SummaryOf(ys, key) {
      SummariesIgnoreOrder(xs, ys, {key});
    }
  }

  lemma {:induction false} DistinctSize(order: seq<Key>)
    requires Distinct(order)
    ensures |KeySet(order)| == |order|
  {
    if order == [] {
    } else {
      var n := |order| - 1;
      DistinctSize(order[..n]);
      AddKey(order, n + 1);
      WholeSlice(order);
    }
  }

  /** One ranking is possible once labels differ. */
  lemma {:induction false} RankingIsUnique(totals: map<Key, int>, labels: map<Key, string>, x: seq<Key>, y: seq<Key>)
    requires (forall key :: key in x ==> key in totals && key in labels) && Injective(labels)
    requires SameKeys(x, y) && |x| == |y| && Sorted(totals, labels, x) && Sorted(totals, labels, y)
    ensures x == y
  {
    if x == [] {
    } else {
      assert x[0] in y && y[0] in x;
      FirstIsUnique(totals, labels, x, y);
      RestsAgree(x, y);
      RankingIsUnique(totals, labels, x[1..], y[1..]);
      FirstOfConcat(x, []);
      FirstOfConcat(y, []);
    }
  }

  lemma FirstIsUnique(totals: map<Key, int>, labels: map<Key, string>, x: seq<Key>, y: seq<Key>)
    requires (forall key :: key in x ==> key in totals && key in labels) && Injective(labels)
    requires SameKeys(x, y) && Sorted(totals, labels, x) && Sorted(totals, labels, y) && x != [] && y != []
    ensures x[0] == y[0]
  {
    assert x[0] in y && y[0] in x;
    var j :| 0 <= j < |y| && y[j] == x[0];
    var k :| 0 <= k < |x| && x[k] == y[0];
    if j > 0 && k > 0 {
      assert Precedes(totals, labels, y[0], y[j]) && Precedes(totals, labels, x[0], x[k]);
      BeforeIsTotal(labels[x[0]], labels[y[0]]);
    }
  }

  lemma RestsAgree(x: seq<Key>, y: seq<Key>)
    requires SameKeys(x, y) && x != [] && y != [] && x[0] == y[0]
    ensures SameKeys(x[1..], y[1..])
  {
    forall key ensures key in x[1..] <==> key in y[1..] {
      assert key in x[1..] <==> key in x && key != x[0];
      assert key in y[1..] <==> key in y && key != y[0];
    }
  }

  ghost predicate SameCounts(c: Comparison, d: Comparison) {
    && c.distinctValues == d.distinctValues && c.truncatedValues == d.truncatedValues
    && c.redactedValues == d.redactedValues && c.distinctTransactions == d.distinctTransactions
    && c.incompleteValues == d.incompleteValues
  }

  lemma UnkeyedSale(xs: seq<Row>, ys: seq<Row>)
    requires multiset(xs) == multiset(ys)
    ensures (exists r :: r in xs && r.key.None? && r.sale) ==> exists r :: r in ys && r.key.None? && r.sale
  {
    if r :| r in xs && r.key.None? && r.sale {
      SameRows(xs, ys, r);
    }
  }

  lemma RedactedIgnoreOrder(rendering: Rendering, order: seq<Key>, order': seq<Key>)
    requires SameKeys(order, order')
    ensures (set key | key in order && rendering.Redacts(key)) == set key | key in order' && rendering.Redacts(key)
  {
  }

  lemma CountsIgnoreOrder(
      xs: seq<Row>, ys: seq<Row>, counted: bool, rendering: Rendering, order: seq<Key>, order': seq<Key>, n: nat,
      c: Comparison, d: Comparison)
    requires multiset(xs) == multiset(ys) && SameKeys(order, order') && |order| == |order'|
    requires Counts(xs, counted, rendering, order, n, c) && Counts(ys, counted, rendering, order', n, d)
    ensures SameCounts(c, d)
  {
    UnkeyedSale(xs, ys);
    UnkeyedSale(ys, xs);
    FoldIgnoresOrder(xs, ys);
    RedactedIgnoreOrder(rendering, order, order');
  }

  lemma BucketsIgnoreOrder(
      xs: seq<Row>, ys: seq<Row>, count: Counting, order: seq<Key>, labels: map<Key, string>, n: nat,
      b: seq<Bucket>, b': seq<Bucket>)
    requires multiset(xs) == multiset(ys) && forall key :: key in order ==> key in labels
    requires Describes(xs, count, order, labels, n, b) && Describes(ys, count, order, labels, n, b')
    ensures b == b'
  {
    forall i | 0 <= i < |b| ensures b[i] == b'[i] {
      BucketIgnoresOrder(xs, ys, count, order, labels, n, b, b', i);
    }
  }

  lemma BucketIgnoresOrder(
      xs: seq<Row>, ys: seq<Row>, count: Counting, order: seq<Key>, labels: map<Key, string>, n: nat,
      b: seq<Bucket>, b': seq<Bucket>, i: nat)
    requires multiset(xs) == multiset(ys) && forall key :: key in order ==> key in labels
    requires Describes(xs, count, order, labels, n, b) && Describes(ys, count, order, labels, n, b') && i < |b|
    ensures b[i] == b'[i]
  {
    SummariesIgnoreOrder(xs, ys, if i < n then {order[i]} else KeySet(order[n..]));
  }

  /**
   * The same rows in another order: every value has the same summary and every count of the comparison is
   * the same. Unless two labels still meet after their digests, the whole comparison is the same.
   */
  lemma RowOrderMattersOnlyWhereTextsMeet(
      xs: seq<Row>, ys: seq<Row>, counted: bool, rendering: Rendering, limit: int, c: Comparison, d: Comparison,
      order: seq<Key>, order': seq<Key>, labels: map<Key, string>, labels': map<Key, string>)
    requires multiset(xs) == multiset(ys) && rendering.Plausible()
    requires Built(xs, counted, rendering, limit, c, order, labels)
    requires Built(ys, counted, rendering, limit, d, order', labels')
    ensures forall key :: key in order <==> key in order'
    ensures forall key :: key in order ==> SummaryOf(xs, key) == SummaryOf(ys, key)
    ensures SameCounts(c, d)
    ensures Injective(SuffixedTexts(order, rendering)) ==> labels == labels' && order == order' && c == d
  {
    SameGroups(xs, ys, order, order');
    SameStates(xs, ys, order, order');
    CountsIgnoreOrder(xs, ys, counted, rendering, order, order', KeptOf(|order|, limit), c, d);
    forall key | key in order ensures SummaryOf(xs, key) == SummaryOf(ys, key) {
      SummariesIgnoreOrder(xs, ys, {key});
    }
    if Injective(SuffixedTexts(order, rendering)) {
      SameLabels(xs, ys, rendering, order, order', labels, labels');
      RankingIsUnique(Totals(order, StatesFrom(xs, order)), labels, order, order');
      BucketsIgnoreOrder(
        xs, ys, Counted(counted), order, labels, KeptOf(|order|, limit), c.buckets, d.buckets);
      var states := StatesFrom(xs, order);
      CurveIsUnique(InOrder(SaleRanking(order, states, labels), states), c.curve, d.curve);
    }
  }

  lemma SameLabels(
      xs: seq<Row>, ys: seq<Row>, rendering: Rendering, order: seq<Key>, order': seq<Key>,
      labels: map<Key, string>, labels': map<Key, string>)
    requires SameKeys(order, order') && Groups(xs, order) && Groups(ys, order')
    requires exists met :: Groups(xs, met) && Labelled(met, rendering, labels)
    requires exists met :: Groups(ys, met) && Labelled(met, rendering, labels')
    requires Injective(SuffixedTexts(order, rendering))
    ensures labels == labels' && Injective(labels)
  {
    var met :| Groups(xs, met) && Labelled(met, rendering, labels);
    var met' :| Groups(ys, met') && Labelled(met', rendering, labels');
    TextsIgnoreOrder(order, met, rendering);
    TextsIgnoreOrder(order, met', rendering);
    LabelsAreTexts(met, rendering, labels);
    LabelsAreTexts(met', rendering, labels');
  }

  lemma SameTotals(rows: seq<Row>, keys: seq<Key>, order: seq<Key>, states: States)
    requires (forall key :: key in keys <==> key in order) && StatesOf(rows, keys, states)
    ensures Totals(keys, states) == Totals(order, StatesFrom(rows, order))
  {
  }

  lemma OrderFalls(rows: seq<Row>, keys: seq<Key>, order: seq<Key>, states: States, labels: map<Key, string>)
    requires StatesOf(rows, keys, states) && Groups(rows, keys) && forall key :: key in keys ==> key in labels
    requires order == Ordering(Totals(keys, states), labels, keys) && Sorted(Totals(keys, states), labels, order)
    requires Distinct(order)
    ensures Groups(rows, order) && StatesOf(rows, order, states)
    ensures LargestFirst(rows, order)
  {
    forall i, j | 0 <= i < j < |order| ensures SummaryOf(rows, order[i]).total >= SummaryOf(rows, order[j]).total {
      assert order[i] in order && order[j] in order;
      assert Precedes(Totals(keys, states), labels, order[i], order[j]);
    }
  }

  // ----- a time series -------------------------------------------------------------------------

  /** Whatever is dated carries a year that prints. */
  predicate Datable(dates: seq<Option<Date>>) {
    forall k :: 0 <= k < |dates| && dates[k].Some? ==> Printable(dates[k].value)
  }

  function PeriodOf(date: Date, granularity: Granularity): Key
    requires Printable(date)
  {
    Some(PeriodLabel(date, granularity))
  }

  /** A dated value goes under its period, with its day as the member to count. */
  function DatedRow(date: Date, value: Option<int>, granularity: Granularity): Row
    requires Printable(date)
  {
    Row(PeriodOf(date, granularity), value, Some(DayNumber(date)), true)
  }

  /** The rows a series covers: the dated ones. */
  function DatedRows(dates: seq<Option<Date>>, values: seq<Option<int>>, granularity: Granularity): seq<Row>
    requires |dates| == |values| && Datable(dates)
  {
    if dates == [] then []
    else
      var n := |dates| - 1;
      DatedRows(dates[..n], values[..n], granularity)
      + if dates[n].Some? then [DatedRow(dates[n].value, values[n], granularity)] else []
  }

  lemma {:induction false} EveryDateHasItsRow(
      dates: seq<Option<Date>>, values: seq<Option<int>>, granularity: Granularity, k: nat)
    requires |dates| == |values| && Datable(dates) && k < |dates| && dates[k].Some?
    ensures DatedRow(dates[k].value, values[k], granularity) in DatedRows(dates, values, granularity)
  {
    var n := |dates| - 1;
    if k == n {
      var rows := DatedRows(dates[..n], values[..n], granularity);
      assert (rows + [DatedRow(dates[n].value, values[n], granularity)])[|rows|].key.Some?;
    } else {
      EveryDateHasItsRow(dates[..n], values[..n], granularity, k);
    }
  }

  lemma {:induction false} EveryRowHasItsDate(
      dates: seq<Option<Date>>, values: seq<Option<int>>, granularity: Granularity, row: Row) returns (k: nat)
    requires |dates| == |values| && Datable(dates) && row in DatedRows(dates, values, granularity)
    ensures k < |dates| && dates[k].Some? && row == DatedRow(dates[k].value, values[k], granularity)
  {
    var n := |dates| - 1;
    if row in DatedRows(dates[..n], values[..n], granularity) {
      k := EveryRowHasItsDate(dates[..n], values[..n], granularity, row);
    } else {
      k := n;
    }
  }

  lemma EveryPeriodIsNamed(dates: seq<Option<Date>>, values: seq<Option<int>>, granularity: Granularity)
    requires |dates| == |values| && Datable(dates)
    ensures forall r :: r in DatedRows(dates, values, granularity) ==> r.key.Some?
  {
    forall r | r in DatedRows(dates, values, granularity) ensures r.key.Some? {
      var k := EveryRowHasItsDate(dates, values, granularity, r);
    }
  }

  /** Ranked by equal totals, keys are in the order of their labels. */
  lemma LevelOrderRises(level: map<Key, int>, labels: map<Key, string>, order: seq<Key>)
    requires forall key :: key in order ==> key in level && key in labels && key == Some(labels[key])
    requires (forall key :: key in level ==> level[key] == 0) && Distinct(order) && Sorted(level, labels, order)
    ensures forall i, j :: 0 <= i < j < |order| ==> Before(labels[order[i]], labels[order[j]])
  {
    forall i, j | 0 <= i < j < |order| ensures Before(labels[order[i]], labels[order[j]]) {
      assert Precedes(level, labels, order[i], order[j]);
      BeforeIsTotal(labels[order[i]], labels[order[j]]);
    }
  }

  /** One bucket for each period of the dates, in the order of the labels, each the fold of its rows. */
  ghost predicate InSeries(
      dates: seq<Option<Date>>, values: seq<Option<int>>, granularity: Granularity, order: seq<Key>,
      labels: map<Key, string>, buckets: seq<Bucket>)
    requires |dates| == |values| && Datable(dates)
  {
    var rows := DatedRows(dates, values, granularity);
    && Groups(rows, order) && (forall key :: key in order ==> key in labels && key == Some(labels[key]))
    && Describes(rows, Days, order, labels, |order|, buckets)
    && forall i, j :: 0 <= i < j < |order| ==> Before(labels[order[i]], labels[order[j]])
  }

  /** The sum of the values there are, if there are any. */
  ghost function TotalOf(rows: seq<Row>): Option<int> {
    if exists r :: r in rows && r.value.Some? then Some(SumOf(rows, false)) else None
  }

  method BuildSeries(dates: seq<Option<Date>>, values: seq<Option<int>>, granularity: Granularity)
    returns (buckets: seq<Bucket>, order: seq<Key>, labels: map<Key, string>)
    requires |dates| == |values| && Datable(dates)
    ensures InSeries(dates, values, granularity, order, labels, buckets)
  {
    var rows := DatedRows(dates, values, granularity);
    var groups, met := Group(rows);
    EveryPeriodIsNamed(dates, values, granularity);
    labels := map key | key in met && key.Some? :: key.value;
    var level := map key | key in met :: 0;
    order := Ordering(level, labels, met);
    OrderingSorts(level, labels, met);
    LevelOrderRises(level, labels, order);
    buckets := PublishBuckets(groups, order, labels, Days, |order|, rows);
  }

  /**
   * The check a caller makes of a series always passes: against the sum of the dated values when every
   * dated row has one, against no sum when none has, and against the rows alone when some have none.
   */
  lemma SeriesReconcile(
      dates: seq<Option<Date>>, values: seq<Option<int>>, granularity: Granularity, order: seq<Key>,
      labels: map<Key, string>, buckets: seq<Bucket>)
    requires |dates| == |values| && Datable(dates) && InSeries(dates, values, granularity, order, labels, buckets)
    ensures var rows := DatedRows(dates, values, granularity);
            Reconciles(buckets, TotalOf(rows), |rows|, !Complete(rows))
  {
    var rows := DatedRows(dates, values, granularity);
    ComparisonsReconcile(rows, Days, order, labels, |order|, buckets);
    if TotalOf(rows).None? {
      assert forall i :: 0 <= i < |rows| ==> rows[i] in rows && rows[i].value.None?;
      assert Unmapped(rows);
    }
  }

  /** Every dated row has its period's bucket. */
  lemma EveryDateHasItsBucket(
      dates: seq<Option<Date>>, values: seq<Option<int>>, granularity: Granularity, order: seq<Key>,
      labels: map<Key, string>, buckets: seq<Bucket>, k: nat) returns (i: nat)
    requires |dates| == |values| && Datable(dates) && InSeries(dates, values, granularity, order, labels, buckets)
    requires k < |dates| && dates[k].Some?
    ensures i < |order| == |buckets| && order[i] == PeriodOf(dates[k].value, granularity)
    ensures buckets[i].name == PeriodLabel(dates[k].value, granularity)
  {
    EveryDateHasItsRow(dates, values, granularity, k);
    assert PeriodOf(dates[k].value, granularity) in order;
    i :| 0 <= i < |order| && order[i] == PeriodOf(dates[k].value, granularity);
  }

  /** And the buckets follow one another in time. */
  lemma SeriesIsChronological(
      dates: seq<Option<Date>>, values: seq<Option<int>>, granularity: Granularity, order: seq<Key>,
      labels: map<Key, string>, buckets: seq<Bucket>, a: Date, b: Date, i: nat, j: nat)
    requires |dates| == |values| && Datable(dates) && InSeries(dates, values, granularity, order, labels, buckets)
    requires Printable(a) && Printable(b) && i < |order| && j < |order|
    requires order[i] == PeriodOf(a, granularity) && order[j] == PeriodOf(b, granularity)
    ensures i < j <==> EarlierPeriod(a, b, granularity)
    ensures i == j <==> SamePeriod(a, b, granularity)
  {
    LabelsFollowPeriods(a, b, granularity);
    BeforeIsIrreflexive(PeriodLabel(a, granularity));
    assert order[i] in order && order[j] in order;
    if j < i {
      assert Before(PeriodLabel(b, granularity), PeriodLabel(a, granularity));
      if Before(PeriodLabel(a, granularity), PeriodLabel(b, granularity)) {
        BeforeIsTransitive(
          PeriodLabel(a, granularity), PeriodLabel(b, granularity), PeriodLabel(a, granularity));
      }
    }
  }

  // ----- the days a bucket counts

  predicate FallsIn(dates: seq<Option<Date>>, granularity: Granularity, key: Key, k: nat)
    requires Datable(dates) && k < |dates|
  {
    dates[k].Some? && PeriodOf(dates[k].value, granularity) == key
  }

  /** The calendar days of one period among the dates. */
  ghost function DaysIn(dates: seq<Option<Date>>, granularity: Granularity, key: Key): (days: set<Date>)
    requires Datable(dates)
    ensures forall day :: day in days ==> day.Valid() && day == DayOf(day)
  {
    set k: nat | k < |dates| && FallsIn(dates, granularity, key, k) :: DayOf(dates[k].value)
  }

  ghost function NumbersOf(days: set<Date>): set<int>
    requires forall day :: day in days ==> day.Valid()
  {
    set day | day in days :: DayNumber(day)
  }

  /** Different days have different numbers. */
  lemma {:induction false} AsManyNumbersAsDays(days: set<Date>)
    requires forall day :: day in days ==> day.Valid() && day == DayOf(day)
    ensures |NumbersOf(days)| == |days|
    decreases |days|
  {
    if days == {} {
      assert NumbersOf(days) == {};
    } else {
      var day := AnyOf(days);
      AsManyNumbersAsDays(days - {day});
      assert NumbersOf(days) == NumbersOf(days - {day}) + {DayNumber(day)};
      forall other | other in days - {day} ensures DayNumber(other) != DayNumber(day) {
        DaysFollowDates(other, day);
      }
    }
  }

  lemma DayIsMember(
      dates: seq<Option<Date>>, values: seq<Option<int>>, granularity: Granularity, key: Key, k: nat)
    requires |dates| == |values| && Datable(dates) && k < |dates| && FallsIn(dates, granularity, key, k)
    ensures DayNumber(dates[k].value) in Fold(Of(DatedRows(dates, values, granularity), {key})).keys
  {
    var some := Of(DatedRows(dates, values, granularity), {key});
    EveryDateHasItsRow(dates, values, granularity, k);
    assert DatedRow(dates[k].value, values[k], granularity) in some;
    FoldMarks(some);
  }

  lemma MemberIsDay(
      dates: seq<Option<Date>>, values: seq<Option<int>>, granularity: Granularity, key: Key, number: int)
    returns (k: nat)
    requires |dates| == |values| && Datable(dates)
    requires number in Fold(Of(DatedRows(dates, values, granularity), {key})).keys
    ensures k < |dates| && FallsIn(dates, granularity, key, k) && DayNumber(dates[k].value) == number
  {
    var some := Of(DatedRows(dates, values, granularity), {key});
    FoldMarks(some);
    var r :| r in some && r.member == Some(number);
    k := EveryRowHasItsDate(dates, values, granularity, r);
  }

  lemma DaysHold(dates: seq<Option<Date>>, granularity: Granularity, key: Key, k: nat)
    requires Datable(dates) && k < |dates| && FallsIn(dates, granularity, key, k)
    ensures DayOf(dates[k].value) in DaysIn(dates, granularity, key)
    ensures DayNumber(dates[k].value) in NumbersOf(DaysIn(dates, granularity, key))
  {
    SameNumber(dates[k].value);
  }

  lemma DayNumbered(days: set<Date>, number: int) returns (day: Date)
    requires (forall day :: day in days ==> day.Valid()) && number in NumbersOf(days)
    ensures day in days && DayNumber(day) == number
  {
    day :| day in days && DayNumber(day) == number;
  }

  lemma DayHasPlace(dates: seq<Option<Date>>, granularity: Granularity, key: Key, day: Date) returns (k: nat)
    requires Datable(dates) && day in DaysIn(dates, granularity, key)
    ensures k < |dates| && FallsIn(dates, granularity, key, k) && DayOf(dates[k].value) == day
  {
    k :| k < |dates| && FallsIn(dates, granularity, key, k) && DayOf(dates[k].value) == day;
  }

  lemma NumberIsDay(dates: seq<Option<Date>>, granularity: Granularity, key: Key, number: int) returns (k: nat)
    requires Datable(dates) && number in NumbersOf(DaysIn(dates, granularity, key))
    ensures k < |dates| && FallsIn(dates, granularity, key, k) && DayNumber(dates[k].value) == number
  {
    var day := DayNumbered(DaysIn(dates, granularity, key), number);
    k := DayHasPlace(dates, granularity, key, day);
    SameNumber(dates[k].value);
  }

  lemma MembersAreDays(
      dates: seq<Option<Date>>, values: seq<Option<int>>, granularity: Granularity, key: Key, number: int)
    requires |dates| == |values| && Datable(dates)
    ensures number in Fold(Of(DatedRows(dates, values, granularity), {key})).keys
      <==> number in NumbersOf(DaysIn(dates, granularity, key))
  {
    if number in NumbersOf(DaysIn(dates, granularity, key)) {
      var k := NumberIsDay(dates, granularity, key, number);
      DayIsMember(dates, values, granularity, key, k);
    } else if number in Fold(Of(DatedRows(dates, values, granularity), {key})).keys {
      var k := MemberIsDay(dates, values, granularity, key, number);
      DaysHold(dates, granularity, key, k);
    }
  }

  /** A bucket counts the distinct calendar days of its rows, however many rows a day has. */
  lemma BucketsCountDays(
      dates: seq<Option<Date>>, values: seq<Option<int>>, granularity: Granularity, order: seq<Key>,
      labels: map<Key, string>, buckets: seq<Bucket>, i: nat)
    requires |dates| == |values| && Datable(dates) && InSeries(dates, values, granularity, order, labels, buckets)
    requires i < |order|
    ensures i < |buckets| && buckets[i].days == Some(|DaysIn(dates, granularity, order[i])|)
  {
    var members := Fold(Of(DatedRows(dates, values, granularity), {order[i]})).keys;
    forall number ensures number in members <==> number in NumbersOf(DaysIn(dates, granularity, order[i])) {
      MembersAreDays(dates, values, granularity, order[i], number);
    }
    SameMembers(members, NumbersOf(DaysIn(dates, granularity, order[i])));
    AsManyNumbersAsDays(DaysIn(dates, granularity, order[i]));
    assert order[i] in order;
  }

  // ----- what a bucket of a series says, over the dates and the values

  /** One for the last date when it falls in the period. */
  function Once(dates: seq<Option<Date>>, granularity: Granularity, key: Key): nat
    requires Datable(dates) && dates != []
  {
    if FallsIn(dates, granularity, key, |dates| - 1) then 1 else 0
  }

  /** And its value, if it has one. */
  function Held(dates: seq<Option<Date>>, values: seq<Option<int>>, granularity: Granularity, key: Key): int
    requires |dates| == |values| && Datable(dates) && dates != []
  {
    var last := values[|values| - 1];
    if FallsIn(dates, granularity, key, |dates| - 1) && last.Some? then last.value else 0
  }

  /** How many of the dates fall in the period. */
  function DatedIn(dates: seq<Option<Date>>, granularity: Granularity, key: Key): nat
    requires Datable(dates)
  {
    if dates == [] then 0
    else
      var n := |dates| - 1;
      DatedIn(dates[..n], granularity, key) + Once(dates, granularity, key)
  }

  /** What their values add up to. */
  function SumIn(dates: seq<Option<Date>>, values: seq<Option<int>>, granularity: Granularity, key: Key): int
    requires |dates| == |values| && Datable(dates)
  {
    if dates == [] then 0
    else
      var n := |dates| - 1;
      SumIn(dates[..n], values[..n], granularity, key) + Held(dates, values, granularity, key)
  }

  ghost predicate PeriodTells(
      dates: seq<Option<Date>>, values: seq<Option<int>>, granularity: Granularity, key: Key, bucket: Bucket)
    requires |dates| == |values| && Datable(dates)
  {
    && Some(bucket.name) == key && bucket.rows == DatedIn(dates, granularity, key)
    && bucket.days == Some(|DaysIn(dates, granularity, key)|) && bucket.transactions == None && bucket.sold
    && bucket.value == (if exists k: nat :: k < |dates| && FallsIn(dates, granularity, key, k) && values[k].None?
                        then None else Some(SumIn(dates, values, granularity, key)))
  }

  lemma OneMoreRow(before: seq<Row>, row: Row, keys: set<Key>)
    ensures RowsWith(before + [row], keys) == RowsWith(before, keys) + if row.key in keys then 1 else 0
    ensures SumWith(before + [row], keys)
              == SumWith(before, keys) + if row.key in keys && row.value.Some? then row.value.value else 0
  {
    var rows := before + [row];
    assert rows[..|before|] == before;
    NextIndex(rows, keys);
  }

  lemma RowOfNext(dates: seq<Option<Date>>, values: seq<Option<int>>, granularity: Granularity, key: Key)
    requires |dates| == |values| && Datable(dates) && dates != []
    ensures var n := |dates| - 1;
            var before, rows := DatedRows(dates[..n], values[..n], granularity), DatedRows(dates, values, granularity);
            && RowsWith(rows, {key}) == RowsWith(before, {key}) + Once(dates, granularity, key)
            && SumWith(rows, {key}) == SumWith(before, {key}) + Held(dates, values, granularity, key)
  {
    var n := |dates| - 1;
    var before, rows := DatedRows(dates[..n], values[..n], granularity), DatedRows(dates, values, granularity);
    if dates[n].Some? {
      var row := DatedRow(dates[n].value, values[n], granularity);
      OneMoreRow(before, row, {key});
      assert rows == before + [row];
      assert row.key in {key} <==> FallsIn(dates, granularity, key, n);
    } else {
      assert rows == before;
    }
  }

  lemma {:induction false} RowsAreDated(
      dates: seq<Option<Date>>, values: seq<Option<int>>, granularity: Granularity, key: Key)
    requires |dates| == |values| && Datable(dates)
    ensures RowsWith(DatedRows(dates, values, granularity), {key}) == DatedIn(dates, granularity, key)
    ensures SumWith(DatedRows(dates, values, granularity), {key}) == SumIn(dates, values, granularity, key)
  {
    if dates == [] {
    } else {
      var n := |dates| - 1;
      RowsAreDated(dates[..n], values[..n], granularity, key);
      RowOfNext(dates, values, granularity, key);
      DateOfNext(dates, values, granularity, key);
    }
  }

  lemma DateOfNext(dates: seq<Option<Date>>, values: seq<Option<int>>, granularity: Granularity, key: Key)
    requires |dates| == |values| && Datable(dates) && dates != []
    ensures var n := |dates| - 1;
            && DatedIn(dates, granularity, key) == DatedIn(dates[..n], granularity, key) + Once(dates, granularity, key)
            && SumIn(dates, values, granularity, key)
                 == SumIn(dates[..n], values[..n], granularity, key) + Held(dates, values, granularity, key)
  {
  }

  /** A bucket misses a value exactly when some date of its period does. */
  lemma MissingValues(dates: seq<Option<Date>>, values: seq<Option<int>>, granularity: Granularity, key: Key)
    requires |dates| == |values| && Datable(dates)
    ensures (exists r :: r in DatedRows(dates, values, granularity) && r.key in {key} && r.value.None?)
      <==> exists k: nat :: k < |dates| && FallsIn(dates, granularity, key, k) && values[k].None?
  {
    if k: nat :| k < |dates| && FallsIn(dates, granularity, key, k) && values[k].None? {
      EveryDateHasItsRow(dates, values, granularity, k);
    } else if r :| r in DatedRows(dates, values, granularity) && r.key in {key} && r.value.None? {
      var k := EveryRowHasItsDate(dates, values, granularity, r);
    }
  }

  /** Every bucket of a series is the count, the sum and the days of the dates in its period. */
  lemma SeriesTells(
      dates: seq<Option<Date>>, values: seq<Option<int>>, granularity: Granularity, order: seq<Key>,
      labels: map<Key, string>, buckets: seq<Bucket>, i: nat)
    requires |dates| == |values| && Datable(dates) && InSeries(dates, values, granularity, order, labels, buckets)
    requires i < |order|
    ensures |buckets| == |order| && PeriodTells(dates, values, granularity, order[i], buckets[i])
  {
    var rows := DatedRows(dates, values, granularity);
    DescribedBucketsTell(rows, Days, order, labels, |order|, buckets);
    BucketsCountDays(dates, values, granularity, order, labels, buckets, i);
    RowsAreDated(dates, values, granularity, order[i]);
    MissingValues(dates, values, granularity, order[i]);
    assert order[i] in order;
    var r :| r in rows && r.key == order[i];
    var k := EveryRowHasItsDate(dates, values, granularity, r);
  }

  // ----- choosing the granularity and building the series

  function Dated(dates: seq<Option<Date>>): (dated: seq<Date>)
    ensures forall date :: date in dated <==> Some(date) in dates
  {
    if dates == [] then []
    else
      assert dates == [dates[0]] + dates[1..];
      (if dates[0].Some? then [dates[0].value] else []) + Dated(dates[1..])
  }

  /** A measure's series: days, or months when the dates span more than a quarter. */
  method SeriesOf(dates: seq<Option<Date>>, values: seq<Option<int>>)
    returns (granularity: Granularity, buckets: seq<Bucket>, order: seq<Key>, labels: map<Key, string>)
    requires |dates| == |values| && Datable(dates)
    ensures granularity == Monthly <==> exists a, b :: Some(a) in dates && Some(b) in dates && FarApart(a, b)
    ensures InSeries(dates, values, granularity, order, labels, buckets)
    ensures var rows := DatedRows(dates, values, granularity);
            Reconciles(buckets, TotalOf(rows), |rows|, !Complete(rows))
    ensures |buckets| == |order| && forall i :: 0 <= i < |order| ==>
              PeriodTells(dates, values, granularity, order[i], buckets[i])
    ensures granularity == Daily ==> forall bucket :: bucket in buckets ==> bucket.days == Some(1)
  {
    var dated := Dated(dates);
    granularity := GranularityFor(dated);
    buckets, order, labels := BuildSeries(dates, values, granularity);
    SeriesReconcile(dates, values, granularity, order, labels, buckets);
    forall i | 0 <= i < |order| ensures PeriodTells(dates, values, granularity, order[i], buckets[i]) {
      SeriesTells(dates, values, granularity, order, labels, buckets, i);
    }
    if granularity == Daily {
      forall i | 0 <= i < |buckets| ensures buckets[i].days == Some(1) {
        BucketsCountDays(dates, values, granularity, order, labels, buckets, i);
        OneDayEach(dates, values, granularity, order, labels, buckets, i);
      }
    }
  }

  /** The days of one daily period are one day. */
  lemma OneDayEach(
      dates: seq<Option<Date>>, values: seq<Option<int>>, granularity: Granularity, order: seq<Key>,
      labels: map<Key, string>, buckets: seq<Bucket>, i: nat)
    requires |dates| == |values| && Datable(dates) && InSeries(dates, values, granularity, order, labels, buckets)
    requires i < |order| && granularity == Daily
    ensures |DaysIn(dates, granularity, order[i])| == 1
  {
    assert order[i] in order;
    var r :| r in DatedRows(dates, values, granularity) && r.key == order[i];
    var k := EveryRowHasItsDate(dates, values, granularity, r);
    var day := DayOf(dates[k].value);
    forall other | other in DaysIn(dates, granularity, order[i]) ensures other == day {
      var l: nat :| l < |dates| && FallsIn(dates, granularity, order[i], l) && other == DayOf(dates[l].value);
      LabelsFollowPeriods(dates[k].value, dates[l].value, granularity);
      SameMonth(dates[k].value, dates[l].value);
    }
    assert FallsIn(dates, granularity, order[i], k) && day in DaysIn(dates, granularity, order[i]);
    assert DaysIn(dates, granularity, order[i]) == {day};
  }
}
