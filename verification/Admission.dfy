/**
 * Row admission's composite keys: components escaped, joined with a delimiter and counted as one text,
 * and the scan that finds event keys that are missing or repeated.
 */
module Admission {
  import opened Records
  import opened Texts

  const DELIMITER := '|'
  const ESCAPE := '\\'

  /** A cell as admission reads it: already stripped, and nothing when that left nothing. */
  type Cell = value: Option<string> | value.Some? ==> value.value != "" witness None

  /** `str.replace` of one character by a text. */
  function Replaced(text: string, c: char, code: string): string {
    if text == "" then "" else (if text[0] == c then code else [text[0]]) + Replaced(text[1..], c, code)
  }

  /** The escape character is escaped first, then the delimiter. */
  function Escaped(text: string): string {
    Replaced(Replaced(text, ESCAPE, [ESCAPE, ESCAPE]), DELIMITER, [ESCAPE, DELIMITER])
  }

  function Joined(values: seq<string>): string
    requires values != []
  {
    if |values| == 1 then Escaped(values[0]) else Escaped(values[0]) + [DELIMITER] + Joined(values[1..])
  }

  // ----- reading a key back --------------------------------------------------------------------

  /** Split at bare delimiters, taking the character after an escape as it stands. */
  function Parsed(text: string): (values: seq<string>)
    ensures values != []
    decreases |text|
  {
    if text == "" then [""]
    else if text[0] == DELIMITER then [""] + Parsed(text[1..])
    else if text[0] == ESCAPE && |text| > 1 then Prefixed([text[1]], Parsed(text[2..]))
    else Prefixed([text[0]], Parsed(text[1..]))
  }

  function Prefixed(prefix: string, values: seq<string>): (longer: seq<string>)
    requires values != []
    ensures longer != []
  {
    [prefix + values[0]] + values[1..]
  }

  lemma {:induction false} ReplacedConcat(a: string, b: string, c: char, code: string)
    ensures Replaced(a + b, c, code) == Replaced(a, c, code) + Replaced(b, c, code)
  {
    if a == "" {
      assert a + b == b;
    } else {
      assert (a + b)[1..] == a[1..] + b;
      ReplacedConcat(a[1..], b, c, code);
    }
  }

  /** What one character becomes. */
  function Coded(c: char): string {
    if c == '\\' then "\\\\" else if c == '|' then "\\|" else [c]
  }

  lemma EscapedFirst(text: string)
    requires text != ""
    ensures Escaped(text) == Coded(text[0]) + Escaped(text[1..])
  {
    var first := if text[0] == ESCAPE then [ESCAPE, ESCAPE] else [text[0]];
    var rest := Replaced(text[1..], ESCAPE, [ESCAPE, ESCAPE]);
    ReplacedConcat(first, rest, DELIMITER, [ESCAPE, DELIMITER]);
    ReplacedConcat([first[0]], first[1..], DELIMITER, [ESCAPE, DELIMITER]);
    assert first == [first[0]] + first[1..];
    assert Replaced(first, DELIMITER, [ESCAPE, DELIMITER]) == Coded(text[0]);
  }

  lemma CodedReadsBack(c: char, after: string)
    ensures Parsed(Coded(c) + after) == Prefixed([c], Parsed(after))
  {
    assert (Coded(c) + after)[|Coded(c)|..] == after;
  }

  lemma PrefixesChain(c: char, tail: string, values: seq<string>)
    requires values != []
    ensures Prefixed([c], Prefixed(tail, values)) == Prefixed([c] + tail, values)
  {
    assert [c] + (tail + values[0]) == [c] + tail + values[0];
  }

  /** Reading an escaped text gives the text back in front of whatever follows. */
  lemma {:induction false} EscapedReadsBack(text: string, rest: string)
    ensures Parsed(Escaped(text) + rest) == Prefixed(text, Parsed(rest))
  {
    if text == "" {
      assert Escaped(text) + rest == rest;
      assert "" + Parsed(rest)[0] == Parsed(rest)[0];
    } else {
      var c, tail := text[0], text[1..];
      EscapedFirst(text);
      EscapedReadsBack(tail, rest);
      var after := Escaped(tail) + rest;
      assert Escaped(text) + rest == Coded(c) + after;
      CodedReadsBack(c, after);
      PrefixesChain(c, tail, Parsed(rest));
      assert text == [c] + tail;
    }
  }

  /** A composite key reads back as exactly the components it was made of. */
  lemma {:induction false} KeyReadsBack(values: seq<string>)
    requires values != []
    ensures Parsed(Joined(values)) == values
  {
    if |values| == 1 {
      EscapedReadsBack(values[0], "");
      assert Escaped(values[0]) + "" == Escaped(values[0]);
      assert values == [values[0]] && values[0] + "" == values[0];
    } else {
      var rest := values[1..];
      KeyReadsBack(rest);
      EscapedReadsBack(values[0], [DELIMITER] + Joined(rest));
      assert Escaped(values[0]) + ([DELIMITER] + Joined(rest)) == Joined(values);
      assert ([DELIMITER] + Joined(rest))[1..] == Joined(rest);
      assert values[0] + "" == values[0] && values == [values[0]] + rest;
    }
  }

  /** Two component tuples, of any lengths, share a key only when they are the same tuple. */
  lemma KeysAreInjective(a: seq<string>, b: seq<string>)
    requires a != [] && b != [] && Joined(a) == Joined(b)
    ensures a == b
  {
    KeyReadsBack(a);
    KeyReadsBack(b);
  }

  // ----- transaction keys ----------------------------------------------------------------------

  type Column = seq<Cell>

  /** What the contract says identifies a transaction. */
  datatype Identity = BareIdentifier | Nothing | Composite(columns: seq<Column>)

  predicate Rectangular(columns: seq<Column>, height: nat) {
    forall c :: 0 <= c < |columns| ==> |columns[c]| == height
  }

  ghost predicate WholeAt(columns: seq<Column>, index: nat)
    requires forall c :: 0 <= c < |columns| ==> index < |columns[c]|
  {
    forall c :: 0 <= c < |columns| ==> columns[c][index].Some?
  }

  /** A row's component tuple, when no component is blank. */
  ghost function TupleAt(columns: seq<Column>, index: nat): (tuple: seq<string>)
    requires (forall c :: 0 <= c < |columns| ==> index < |columns[c]|) && WholeAt(columns, index)
    ensures |tuple| == |columns|
  {
    seq(|columns|, c requires 0 <= c < |columns| => columns[c][index].value)
  }

  /** One row's key, or nothing at the first blank component. */
  method JoinedKey(columns: seq<Column>, index: nat) returns (key: Option<string>)
    requires columns != [] && forall c :: 0 <= c < |columns| ==> index < |columns[c]|
    ensures key == if WholeAt(columns, index) then Some(Joined(TupleAt(columns, index))) else None
  {
    var values: seq<string> := [];
    for c := 0 to |columns|
      invariant |values| == c && forall i :: 0 <= i < c ==> columns[i][index] == Some(values[i])
    {
      if columns[c][index].None? {
        return None;
      }
      values := values + [columns[c][index].value];
    }
    assert values == TupleAt(columns, index);
    key := Some(Joined(values));
  }

  /** Every row's canonical key: the bare identifier, nothing, or the composite of a kept row. */
  method TransactionKeys(identity: Identity, identifiers: Column, kept: set<nat>) returns (keys: seq<Option<string>>)
    requires identity.Composite? ==> identity.columns != [] && Rectangular(identity.columns, |identifiers|)
    ensures |keys| == |identifiers|
    ensures forall i: nat :: i < |keys| ==> keys[i] == KeyAt(identity, identifiers, kept, i)
  {
    match identity
    case BareIdentifier => keys := identifiers;
    case Nothing => keys := seq(|identifiers|, _ => None);
    case Composite(columns) =>
      keys := [];
      for i := 0 to |identifiers|
        invariant |keys| == i && forall j: nat :: j < i ==> keys[j] == KeyAt(identity, identifiers, kept, j)
      {
        var key := None;
        if i in kept {
          key := JoinedKey(columns, i);
        }
        keys := keys + [key];
      }
  }

  ghost function KeyAt(identity: Identity, identifiers: Column, kept: set<nat>, i: nat): Option<string>
    requires identity.Composite? ==> identity.columns != [] && Rectangular(identity.columns, |identifiers|)
    requires i < |identifiers|
  {
    match identity
    case BareIdentifier => identifiers[i]
    case Nothing => None
    case Composite(columns) =>
      if i in kept && WholeAt(columns, i) then Some(Joined(TupleAt(columns, i))) else None
  }

  /** Distinct keys among the kept rows; Python counts only texts that are not empty. */
  function TransactionCount(keys: seq<Option<string>>, kept: set<nat>): nat {
    |Counted(keys, kept)|
  }

  function Counted(keys: seq<Option<string>>, kept: set<nat>): (counted: set<string>)
    ensures forall text :: text in counted <==>
              text != "" && exists i :: i in kept && i < |keys| && keys[i] == Some(text)
  {
    set i | i in kept && i < |keys| && keys[i].Some? && keys[i].value != "" :: keys[i].value
  }

  ghost function Tuples(columns: seq<Column>, kept: set<nat>, height: nat): set<seq<string>>
    requires Rectangular(columns, height)
  {
    set i | i in kept && i < height && WholeAt(columns, i) :: TupleAt(columns, i)
  }

  ghost function KeysOf(tuples: set<seq<string>>): set<string>
    requires forall tuple :: tuple in tuples ==> tuple != []
  {
    set tuple | tuple in tuples :: Joined(tuple)
  }

  /** Distinct tuples make distinct keys, so there are as many of the one as of the other. */
  lemma {:induction false} AsManyKeysAsTuples(tuples: set<seq<string>>)
    requires forall tuple :: tuple in tuples ==> tuple != []
    ensures |KeysOf(tuples)| == |tuples|
  {
    if tuples == {} {
    } else {
      var tuple :| tuple in tuples;
      var rest := tuples - {tuple};
      AsManyKeysAsTuples(rest);
      forall t | t in rest ensures Joined(t) != Joined(tuple) {
        if Joined(t) == Joined(tuple) {
          KeysAreInjective(t, tuple);
        }
      }
      assert tuples == rest + {tuple};
      assert KeysOf(tuples) == KeysOf(rest) + {Joined(tuple)};
    }
  }

  lemma {:induction false} JoinedIsNotEmpty(values: seq<string>)
    requires values != [] && values[0] != ""
    ensures Joined(values) != ""
  {
    EscapedFirst(values[0]);
  }

  /** The transaction count is the number of distinct complete component tuples among the kept rows. */
  lemma CompositeCountsTuples(columns: seq<Column>, identifiers: Column, kept: set<nat>, keys: seq<Option<string>>)
    requires columns != [] && Rectangular(columns, |identifiers|) && |keys| == |identifiers|
    requires forall i: nat :: i < |keys| ==> keys[i] == KeyAt(Composite(columns), identifiers, kept, i)
    ensures TransactionCount(keys, kept) == |Tuples(columns, kept, |identifiers|)|
  {
    var tuples := Tuples(columns, kept, |identifiers|);
    var counted, joined := Counted(keys, kept), KeysOf(tuples);
    forall key ensures key in counted <==> key in joined {
      if key in joined {
        var tuple :| tuple in tuples && key == Joined(tuple);
        var i :| i in kept && i < |identifiers| && WholeAt(columns, i) && tuple == TupleAt(columns, i);
        assert columns[0][i].value != "";
        JoinedIsNotEmpty(tuple);
        assert keys[i] == Some(key);
      }
      if key in counted {
        var i :| i in kept && i < |keys| && keys[i].Some? && keys[i].value == key;
        assert TupleAt(columns, i) in tuples;
      }
    }
    assert counted == joined;
    AsManyKeysAsTuples(tuples);
  }

  // ----- repeated event keys -------------------------------------------------------------------

  ghost function CellsAt(columns: seq<Column>, index: nat): (cells: seq<Cell>)
    requires forall c :: 0 <= c < |columns| ==> index < |columns[c]|
    ensures |cells| == |columns| && forall c :: 0 <= c < |columns| ==> cells[c] == columns[c][index]
  {
    seq(|columns|, c requires 0 <= c < |columns| => columns[c][index])
  }

  datatype EventKind = Sale | Return

  /** A kept row among the first `n` whose declared key is missing, or is another kept row's too. */
  ghost predicate Unproven(columns: seq<Column>, kept: set<nat>, n: nat, i: nat)
    requires forall c :: 0 <= c < |columns| ==> n <= |columns[c]|
  {
    && i < n && i in kept
    && (!WholeAt(columns, i)
        || exists j: nat :: j < n && j in kept && j != i && CellsAt(columns, j) == CellsAt(columns, i))
  }

  ghost predicate Touched(columns: seq<Column>, kinds: seq<EventKind>, kept: set<nat>, n: nat, kind: EventKind)
    requires (forall c :: 0 <= c < |columns| ==> n <= |columns[c]|) && n <= |kinds|
  {
    exists i: nat :: Unproven(columns, kept, n, i) && kinds[i] == kind
  }

  /** The keys met so far, each under the kind of some row that has it. */
  ghost predicate Seen(
      columns: seq<Column>, kinds: seq<EventKind>, kept: set<nat>, n: nat, seen: map<seq<Cell>, EventKind>)
    requires (forall c :: 0 <= c < |columns| ==> n <= |columns[c]|) && n <= |kinds|
  {
    && (forall i: nat :: i < n && i in kept && WholeAt(columns, i) ==> CellsAt(columns, i) in seen)
    && (forall cells :: cells in seen ==>
          exists f: nat :: f < n && f in kept && CellsAt(columns, f) == cells && kinds[f] == seen[cells])
  }

  method KeyOf(columns: seq<Column>, index: nat) returns (cells: seq<Cell>, whole: bool)
    requires forall c :: 0 <= c < |columns| ==> index < |columns[c]|
    ensures cells == CellsAt(columns, index) && whole == WholeAt(columns, index)
  {
    cells := seq(|columns|, c requires 0 <= c < |columns| => columns[c][index]);
    whole := forall c :: 0 <= c < |columns| ==> cells[c].Some?;
  }

  /** Row `n` joins the rows met: with a hole, with a key seen before, or with a new key. */
  lemma NextRowTouches(
      columns: seq<Column>, kinds: seq<EventKind>, kept: set<nat>, n: nat, seen: map<seq<Cell>, EventKind>,
      kind: EventKind)
    requires (forall c :: 0 <= c < |columns| ==> n < |columns[c]|) && n < |kinds| && n in kept
    requires Seen(columns, kinds, kept, n, seen)
    ensures var cells := CellsAt(columns, n);
            Touched(columns, kinds, kept, n + 1, kind) <==>
              || Touched(columns, kinds, kept, n, kind)
              || (!WholeAt(columns, n) && kind == kinds[n])
              || (WholeAt(columns, n) && cells in seen && (kind == seen[cells] || kind == kinds[n]))
  {
    var cells := CellsAt(columns, n);
    if Touched(columns, kinds, kept, n, kind) {
      var i: nat :| Unproven(columns, kept, n, i) && kinds[i] == kind;
      assert Unproven(columns, kept, n + 1, i);
    }
    if !WholeAt(columns, n) {
      assert Unproven(columns, kept, n + 1, n);
    } else if cells in seen {
      var f: nat :| f < n && f in kept && CellsAt(columns, f) == cells && kinds[f] == seen[cells];
      assert Unproven(columns, kept, n + 1, n) && Unproven(columns, kept, n + 1, f);
    }
    if Touched(columns, kinds, kept, n + 1, kind) {
      var i: nat :| Unproven(columns, kept, n + 1, i) && kinds[i] == kind;
      OlderRowWasUnproven(columns, kinds, kept, n, seen, i);
    }
  }

  lemma OlderRowWasUnproven(
      columns: seq<Column>, kinds: seq<EventKind>, kept: set<nat>, n: nat, seen: map<seq<Cell>, EventKind>, i: nat)
    requires (forall c :: 0 <= c < |columns| ==> n < |columns[c]|) && n < |kinds| && n in kept
    requires Seen(columns, kinds, kept, n, seen) && Unproven(columns, kept, n + 1, i)
    ensures var cells := CellsAt(columns, n);
            || Unproven(columns, kept, n, i)
            || (i == n && (WholeAt(columns, n) ==> cells in seen))
            || (WholeAt(columns, n) && cells in seen && kinds[i] == seen[cells])
  {
    var cells := CellsAt(columns, n);
    if i < n && WholeAt(columns, i) && !Unproven(columns, kept, n, i) {
      assert CellsAt(columns, i) == cells;
      assert cells in seen;
      var f: nat :| f < n && f in kept && CellsAt(columns, f) == cells && kinds[f] == seen[cells];
      assert f == i;
    }
  }

  /** The kinds of exactly those kept rows whose declared key is missing or repeated. */
  method CollisionKinds(columns: seq<Column>, kinds: seq<EventKind>, kept: set<nat>) returns (repeated: set<EventKind>)
    requires Rectangular(columns, |kinds|)
    ensures forall kind :: kind in repeated <==> Touched(columns, kinds, kept, |kinds|, kind)
  {
    var seen: map<seq<Cell>, EventKind> := map[];
    repeated := {};
    for n := 0 to |kinds|
      invariant Seen(columns, kinds, kept, n, seen)
      invariant forall kind :: kind in repeated <==> Touched(columns, kinds, kept, n, kind)
    {
      if n in kept {
        var cells, whole := KeyOf(columns, n);
        forall kind { NextRowTouches(columns, kinds, kept, n, seen, kind); }
        if !whole {
          repeated := repeated + {kinds[n]};
        } else if cells in seen {
          repeated := repeated + {seen[cells], kinds[n]};
        } else {
          seen := seen[cells := kinds[n]];
        }
      } else {
        forall kind { SkippedRowTouchesNothing(columns, kinds, kept, n, kind); }
      }
    }
  }

  lemma SkippedRowTouchesNothing(
      columns: seq<Column>, kinds: seq<EventKind>, kept: set<nat>, n: nat, kind: EventKind)
    requires (forall c :: 0 <= c < |columns| ==> n < |columns[c]|) && n < |kinds| && n !in kept
    ensures Touched(columns, kinds, kept, n + 1, kind) <==> Touched(columns, kinds, kept, n, kind)
  {
    if Touched(columns, kinds, kept, n, kind) {
      var i: nat :| Unproven(columns, kept, n, i) && kinds[i] == kind;
      assert Unproven(columns, kept, n + 1, i);
    }
    if Touched(columns, kinds, kept, n + 1, kind) {
      var i: nat :| Unproven(columns, kept, n + 1, i) && kinds[i] == kind;
      assert Unproven(columns, kept, n, i);
    }
  }
}
