/**
 * What one group of rows adds up to, with exact amounts held as scaled integers: folding rows one by
 * one, merging two folds, and why neither the order nor the grouping of rows can change the answer.
 */
module Summaries {
  import opened Records
  import opened Labels

  /** A transaction or a date, compared only for equality. */
  type Member = int

  datatype Row = Row(key: Key, value: Option<int>, member: Option<Member>, sale: bool)

  datatype Summary = Summary(
    total: int, rows: nat, present: bool, absent: bool, keys: set<Member>,
    saleTotal: int, salePresent: bool, saleRow: bool, saleAbsent: bool)
  {
    /** The total, or nothing when the rows are incomplete. */
    function Whole(): (whole: Option<int>)
      ensures whole.Some? ==> present
    {
      if present && !absent then Some(total) else None
    }
  }

  const NOTHING := Summary(0, 0, false, false, {}, 0, false, false, false)

  function Amount(value: Option<int>): int {
    if value.Some? then value.value else 0
  }

  function Join(a: Summary, b: Summary): Summary {
    Summary(
      a.total + b.total, a.rows + b.rows, a.present || b.present, a.absent || b.absent, a.keys + b.keys,
      a.saleTotal + b.saleTotal, a.salePresent || b.salePresent, a.saleRow || b.saleRow, a.saleAbsent || b.saleAbsent)
  }

  /** What a single row contributes. */
  function One(row: Row): Summary {
    Summary(
      Amount(row.value), 1, row.value.Some?, row.value.None?, if row.member.Some? then {row.member.value} else {},
      if row.sale then Amount(row.value) else 0, row.sale && row.value.Some?, row.sale, row.sale && row.value.None?)
  }

  function Plus(s: Summary, row: Row): Summary {
    Join(s, One(row))
  }

  lemma JoinCommutes(a: Summary, b: Summary)
    ensures Join(a, b) == Join(b, a)
  {
  }

  lemma JoinAssociates(a: Summary, b: Summary, c: Summary)
    ensures Join(Join(a, b), c) == Join(a, Join(b, c))
  {
    assert a.keys + b.keys + c.keys == a.keys + (b.keys + c.keys);
  }

  lemma JoinNothing(a: Summary)
    ensures Join(a, NOTHING) == a && Join(NOTHING, a) == a
  {
    assert a.keys + {} == a.keys && {} + a.keys == a.keys;
  }

  function Fold(rows: seq<Row>): Summary {
    if rows == [] then NOTHING else Plus(Fold(rows[..|rows| - 1]), rows[|rows| - 1])
  }

  // ----- what a fold says of its rows ----------------------------------------------------------

  function SumOf(rows: seq<Row>, salesOnly: bool): int {
    if rows == [] then 0
    else Amount(rows[0].value) * (if rows[0].sale || !salesOnly then 1 else 0) + SumOf(rows[1..], salesOnly)
  }

  lemma {:induction false} SumOfConcat(xs: seq<Row>, ys: seq<Row>, salesOnly: bool)
    ensures SumOf(xs + ys, salesOnly) == SumOf(xs, salesOnly) + SumOf(ys, salesOnly)
  {
    if xs == [] {
      assert xs + ys == ys;
    } else {
      assert (xs + ys)[1..] == xs[1..] + ys;
      SumOfConcat(xs[1..], ys, salesOnly);
    }
  }

  lemma LastOf(rows: seq<Row>, r: Row)
    requires rows != []
    ensures r in rows <==> r in rows[..|rows| - 1] || r == rows[|rows| - 1]
  {
    assert rows == rows[..|rows| - 1] + [rows[|rows| - 1]];
  }

  /** The amounts of a fold are the sums over its rows. */
  lemma {:induction false} FoldAdds(rows: seq<Row>)
    ensures var s := Fold(rows);
            s.total == SumOf(rows, false) && s.saleTotal == SumOf(rows, true) && s.rows == |rows|
  {
    if rows == [] {
    } else {
      var front, last := rows[..|rows| - 1], rows[|rows| - 1];
      assert rows == front + [last];
      FoldAdds(front);
      SumOfConcat(front, [last], false);
      SumOfConcat(front, [last], true);
    }
  }

  /** Its marks and its members say which rows there were. */
  lemma {:induction false} FoldMarks(rows: seq<Row>)
    ensures var s := Fold(rows);
            && (s.present <==> exists r :: r in rows && r.value.Some?)
            && (s.absent <==> exists r :: r in rows && r.value.None?)
            && (s.salePresent <==> exists r :: r in rows && r.sale && r.value.Some?)
            && (s.saleAbsent <==> exists r :: r in rows && r.sale && r.value.None?)
            && (s.saleRow <==> exists r :: r in rows && r.sale)
            && (forall m :: m in s.keys <==> exists r :: r in rows && r.member == Some(m))
  {
    if rows == [] {
    } else {
      FoldMarks(rows[..|rows| - 1]);
      forall r ensures r in rows <==> r in rows[..|rows| - 1] || r == rows[|rows| - 1] {
        LastOf(rows, r);
      }
    }
  }

  // ----- merging -------------------------------------------------------------------------------

  lemma FoldNext(rows: seq<Row>, row: Row)
    ensures Fold(rows + [row]) == Join(Fold(rows), One(row))
  {
    assert (rows + [row])[..|rows|] == rows;
  }

  /** Merging the folds of two lists is folding the one after the other. */
  lemma {:induction false} MergeOfFolds(xs: seq<Row>, ys: seq<Row>)
    ensures Fold(xs + ys) == Join(Fold(xs), Fold(ys))
  {
    if ys == [] {
      assert xs + ys == xs;
      JoinNothing(Fold(xs));
    } else {
      var n := |ys| - 1;
      assert xs + ys == (xs + ys[..n]) + [ys[n]];
      FoldNext(xs + ys[..n], ys[n]);
      MergeOfFolds(xs, ys[..n]);
      JoinAssociates(Fold(xs), Fold(ys[..n]), One(ys[n]));
    }
  }

  /** Where another ordering of the same items has its copy of the first one. */
  lemma Counterpart<T>(x: T, rest: seq<T>, ys: seq<T>) returns (before: seq<T>, after: seq<T>)
    requires multiset([x] + rest) == multiset(ys)
    ensures ys == before + [x] + after && multiset(rest) == multiset(before + after)
  {
    assert x in multiset([x] + rest);
    var i :| 0 <= i < |ys| && ys[i] == x;
    before, after := ys[..i], ys[i + 1..];
    assert ys == before + [x] + after;
    assert multiset(ys) == multiset(before) + multiset{x} + multiset(after);
    assert multiset([x] + rest) == multiset{x} + multiset(rest);
    assert multiset(rest) == multiset(ys) - multiset{x};
  }

  lemma MovedToFront(before: seq<Row>, x: Row, after: seq<Row>)
    ensures Fold(before + [x] + after) == Join(One(x), Fold(before + after))
  {
    MergeOfFolds(before + [x], after);
    FoldNext(before, x);
    JoinCommutes(Fold(before), One(x));
    MergeOfFolds(before, after);
    JoinAssociates(One(x), Fold(before), Fold(after));
  }

  lemma FirstJoined(x: Row, rest: seq<Row>)
    ensures Fold([x] + rest) == Join(One(x), Fold(rest))
  {
    MovedToFront([], x, rest);
    assert [] + [x] + rest == [x] + rest && [] + rest == rest;
  }

  /** Rows in any order fold to the same summary. */
  lemma {:induction false} FoldIgnoresOrder(xs: seq<Row>, ys: seq<Row>)
    requires multiset(xs) == multiset(ys)
    ensures Fold(xs) == Fold(ys)
    decreases |xs|
  {
    if xs == [] {
      assert |multiset(ys)| == 0;
    } else {
      var x, rest := xs[0], xs[1..];
      assert xs == [x] + rest;
      var before, after := Counterpart(x, rest, ys);
      FoldIgnoresOrder(rest, before + after);
      FirstJoined(x, rest);
      MovedToFront(before, x, after);
    }
  }

  // ----- grouping ------------------------------------------------------------------------------

  function Of(rows: seq<Row>, keys: set<Key>): (some: seq<Row>)
    ensures forall r :: r in some <==> r in rows && r.key in keys
  {
    if rows == [] then []
    else Of(rows[..|rows| - 1], keys) + if rows[|rows| - 1].key in keys then [rows[|rows| - 1]] else []
  }

  lemma {:induction false} OfEverything(rows: seq<Row>, keys: set<Key>)
    requires forall r :: r in rows ==> r.key in keys
    ensures Of(rows, keys) == rows
  {
    if rows == [] {
    } else {
      var n := |rows| - 1;
      assert rows == rows[..n] + [rows[n]];
      OfEverything(rows[..n], keys);
    }
  }

  lemma {:induction false} OfNothing(rows: seq<Row>)
    ensures Of(rows, {}) == []
  {
    if rows == [] {
    } else {
      OfNothing(rows[..|rows| - 1]);
    }
  }

  /** The fold of two groups' rows, interleaved as they came, is the merge of their folds. */
  lemma {:induction false} GroupsMerge(rows: seq<Row>, a: set<Key>, b: set<Key>)
    requires a !! b
    ensures Fold(Of(rows, a + b)) == Join(Fold(Of(rows, a)), Fold(Of(rows, b)))
  {
    if rows == [] {
      JoinNothing(NOTHING);
    } else {
      var n := |rows| - 1;
      var last := rows[n];
      GroupsMerge(rows[..n], a, b);
      FoldOfNext(rows, a + b);
      FoldOfNext(rows, a);
      FoldOfNext(rows, b);
      var left, right := Fold(Of(rows[..n], a)), Fold(Of(rows[..n], b));
      JoinAssociates(left, right, One(last));
      JoinAssociates(left, One(last), right);
      JoinCommutes(One(last), right);
    }
  }

  lemma FoldOfNext(rows: seq<Row>, keys: set<Key>)
    requires rows != []
    ensures var n := |rows| - 1;
            Fold(Of(rows, keys))
              == if rows[n].key in keys then Join(Fold(Of(rows[..n], keys)), One(rows[n])) else Fold(Of(rows[..n], keys))
  {
    var n := |rows| - 1;
    var before := Of(rows[..n], keys);
    if rows[n].key in keys {
      FoldNext(before, rows[n]);
    } else {
      assert Of(rows, keys) == before;
    }
  }
}
