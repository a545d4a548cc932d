/** The accumulator of one group of rows, updated in place, and the order groups are ranked in. */
module Aggregates {
  import opened Records
  import opened Texts
  import opened Labels
  import opened Summaries

  class Accumulator {
    var total: int
    var rows: nat
    var present: bool
    var absent: bool
    var keys: set<Member>
    var saleTotal: int
    var salePresent: bool
    var saleRow: bool
    var saleAbsent: bool

    function State(): Summary reads this {
      Summary(total, rows, present, absent, keys, saleTotal, salePresent, saleRow, saleAbsent)
    }

    constructor ()
      ensures State() == NOTHING
    {
      total, rows, present, absent, keys := 0, 0, false, false, {};
      saleTotal, salePresent, saleRow, saleAbsent := 0, false, false, false;
    }

    /** One row more. */
    method Add(row: Row)
      modifies this
      ensures State() == Join(old(State()), One(row))
    {
      AddAmounts(row);
      AddMarks(row);
      AddMember(row);
    }

    method AddMember(row: Row)
      modifies `rows, `keys
      ensures rows == old(rows) + 1 && keys == old(keys) + One(row).keys
    {
      rows := rows + 1;
      if row.member.Some? {
        keys := keys + {row.member.value};
      }
    }

    method AddAmounts(row: Row)
      modifies `total, `saleTotal
      ensures total == old(total) + One(row).total && saleTotal == old(saleTotal) + One(row).saleTotal
    {
      total := total + Amount(row.value);
      saleTotal := saleTotal + if row.value.Some? && row.sale then row.value.value else 0;
    }

    method AddMarks(row: Row)
      modifies `present, `absent, `salePresent, `saleRow, `saleAbsent
      ensures present == (old(present) || One(row).present) && absent == (old(absent) || One(row).absent)
      ensures salePresent == (old(salePresent) || One(row).salePresent)
      ensures saleAbsent == (old(saleAbsent) || One(row).saleAbsent) && saleRow == (old(saleRow) || One(row).saleRow)
    {
      var missing := row.value.None?;
      saleRow := saleRow || row.sale;
      absent := absent || missing;
      saleAbsent := saleAbsent || (missing && row.sale);
      present := present || !missing;
      salePresent := salePresent || (!missing && row.sale);
    }

    /** Everything another accumulator saw. */
    method Merge(other: Accumulator)
      modifies this
      ensures State() == Join(old(State()), old(other.State()))
    {
      total, saleTotal := total + other.total, saleTotal + other.saleTotal;
      rows, keys := rows + other.rows, keys + other.keys;
      MergeMarks(other);
    }

    method MergeMarks(other: Accumulator)
      modifies `present, `absent, `salePresent, `saleRow, `saleAbsent
      ensures present == (old(present) || old(other.present)) && absent == (old(absent) || old(other.absent))
      ensures salePresent == (old(salePresent) || old(other.salePresent))
      ensures saleAbsent == (old(saleAbsent) || old(other.saleAbsent)) && saleRow == (old(saleRow) || old(other.saleRow))
    {
      present, absent := present || other.present, absent || other.absent;
      salePresent, saleRow := salePresent || other.salePresent, saleRow || other.saleRow;
      saleAbsent := saleAbsent || other.saleAbsent;
    }
  }

  // ----- ranking -------------------------------------------------------------------------------

  /** Larger totals first, ties by label. */
  predicate Precedes(totals: map<Key, int>, labels: map<Key, string>, a: Key, b: Key)
    requires a in totals && b in totals && a in labels && b in labels
  {
    totals[a] > totals[b] || (totals[a] == totals[b] && !Before(labels[b], labels[a]))
  }

  ghost predicate Sorted(totals: map<Key, int>, labels: map<Key, string>, order: seq<Key>)
    requires forall key :: key in order ==> key in totals && key in labels
  {
    forall i, j :: 0 <= i < j < |order| ==> Precedes(totals, labels, order[i], order[j])
  }

  function Insert(totals: map<Key, int>, labels: map<Key, string>, order: seq<Key>, key: Key): (longer: seq<Key>)
    requires forall each :: each in order || each == key ==> each in totals && each in labels
    ensures forall each :: each in longer <==> each in order || each == key
    ensures |longer| == |order| + 1
  {
    if order == [] || Precedes(totals, labels, key, order[0]) then [key] + order
    else
      assert order == [order[0]] + order[1..];
      [order[0]] + Insert(totals, labels, order[1..], key)
  }

  lemma PrecedesIsTransitive(totals: map<Key, int>, labels: map<Key, string>, a: Key, b: Key, c: Key)
    requires forall key :: key in {a, b, c} ==> key in totals && key in labels
    requires Precedes(totals, labels, a, b) && Precedes(totals, labels, b, c)
    ensures Precedes(totals, labels, a, c)
  {
    BeforeIsTotal(labels[a], labels[b]);
    BeforeIsTotal(labels[b], labels[c]);
    if Before(labels[c], labels[a]) {
      if Before(labels[a], labels[b]) {
        BeforeIsTransitive(labels[c], labels[a], labels[b]);
      }
    }
  }

  lemma {:induction false} InsertSorts(totals: map<Key, int>, labels: map<Key, string>, order: seq<Key>, key: Key)
    requires forall each :: each in order || each == key ==> each in totals && each in labels
    requires Sorted(totals, labels, order) && Distinct(order) && key !in order
    ensures Sorted(totals, labels, Insert(totals, labels, order, key))
    ensures Distinct(Insert(totals, labels, order, key))
  {
    if order == [] {
    } else if Precedes(totals, labels, key, order[0]) {
      forall j | 0 < j < |order| ensures Precedes(totals, labels, key, order[j]) {
        PrecedesIsTransitive(totals, labels, key, order[0], order[j]);
      }
    } else {
      var first, rest := order[0], order[1..];
      InsertSorts(totals, labels, rest, key);
      NotPrecedesFlips(totals, labels, key, first);
      var longer := Insert(totals, labels, rest, key);
      forall j | 0 <= j < |longer| ensures Precedes(totals, labels, first, longer[j]) && longer[j] != first {
        assert longer[j] in longer;
        if longer[j] != key {
          var i :| 0 <= i < |rest| && rest[i] == longer[j];
          assert order[i + 1] == rest[i];
        }
      }
    }
  }

  lemma NotPrecedesFlips(totals: map<Key, int>, labels: map<Key, string>, a: Key, b: Key)
    requires forall key :: key in {a, b} ==> key in totals && key in labels
    requires !Precedes(totals, labels, a, b)
    ensures Precedes(totals, labels, b, a)
  {
    if Before(labels[b], labels[a]) && Before(labels[a], labels[b]) {
      BeforeIsTransitive(labels[a], labels[b], labels[a]);
      BeforeIsIrreflexive(labels[a]);
    }
  }

  function Ordering(totals: map<Key, int>, labels: map<Key, string>, keys: seq<Key>): (order: seq<Key>)
    requires forall key :: key in keys ==> key in totals && key in labels
    ensures |order| == |keys| && forall key :: key in order <==> key in keys
  {
    if keys == [] then [] else
      assert keys == keys[..|keys| - 1] + [keys[|keys| - 1]];
      Insert(totals, labels, Ordering(totals, labels, keys[..|keys| - 1]), keys[|keys| - 1])
  }

  lemma {:induction false} OrderingSorts(totals: map<Key, int>, labels: map<Key, string>, keys: seq<Key>)
    requires Distinct(keys) && forall key :: key in keys ==> key in totals && key in labels
    ensures Sorted(totals, labels, Ordering(totals, labels, keys)) && Distinct(Ordering(totals, labels, keys))
  {
    if keys == [] {
    } else {
      var front, last := keys[..|keys| - 1], keys[|keys| - 1];
      OrderingSorts(totals, labels, front);
      InsertSorts(totals, labels, Ordering(totals, labels, front), last);
    }
  }
}
