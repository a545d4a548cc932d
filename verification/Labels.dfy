/**
 * The labels of a comparison's buckets: synthetic labels are reserved, redacted values are numbered,
 * and whatever collides is told apart, for any display function and any discriminator.
 */
module Labels {
  import opened Collections
  import opened Records
  import opened Texts

  /** A source value, or none for rows that carry no value. */
  type Key = Option<string>

  const OTHER := "other"
  const UNLABELLED := "unlabelled"
  const REDACTED := "redacted"
  const RESERVED := {OTHER, UNLABELLED, REDACTED}
  const SENTINEL: string := [0 as char] + REDACTED

  /** What a rendering depends on besides the values: the display, the digest and what counts as a digit. */
  datatype Rendering = Rendering(display: Option<string -> string>, discriminator: string -> string, digit: char -> bool) {
    predicate Plausible() {
      !digit(')') && !digit('#') && forall c: char :: '0' <= c <= '9' ==> digit(c)
    }

    function Shown(value: string): string {
      if display.Some? then display.value(value) else value
    }

    predicate Redacts(key: Key) {
      key.Some? && display.Some? && display.value(key.value) == SENTINEL
    }

    /** The text `redacted` alone, or followed by a space and at least one digit, and only digits. */
    predicate GeneratedRedaction(text: string) {
      text == REDACTED || (|text| > 9 && text[..9] == "redacted " && forall i :: 9 <= i < |text| ==> digit(text[i]))
    }

    predicate Claimed(text: string) {
      text in RESERVED || GeneratedRedaction(text)
    }
  }

  function Discriminated(text: string, digest: string): string {
    text + " (" + digest + ")"
  }

  function Numbered(text: string, n: nat): string {
    text + " #" + Decimal(n)
  }

  function RedactionLabel(n: nat): string {
    REDACTED + " " + Decimal(n)
  }

  /** Exactly the two generated forms. */
  lemma GeneratedRedactionsAre(rendering: Rendering, text: string)
    ensures rendering.GeneratedRedaction(text) <==>
      || text == "redacted"
      || exists digits: string :: digits != "" && text == "redacted " + digits && AllDigits(rendering, digits)
  {
    if rendering.GeneratedRedaction(text) && text != "redacted" {
      assert text == "redacted " + text[9..] && AllDigits(rendering, text[9..]);
    }
  }

  predicate AllDigits(rendering: Rendering, digits: string) {
    forall c :: c in digits ==> rendering.digit(c)
  }

  /** Text only a suffix could have produced. */
  predicate Decorated(text: string) {
    |text| > 0 && (text[|text| - 1] == ')' || ('#' in text && '0' <= text[|text| - 1] <= '9'))
  }

  lemma NumberedIsInjective(text: string, m: nat, n: nat)
    requires Numbered(text, m) == Numbered(text, n)
    ensures m == n
  {
    var start := |text| + 2;
    assert Numbered(text, m)[start..] == Decimal(m) && Numbered(text, n)[start..] == Decimal(n);
    DecimalIsInjective(m, n);
  }

  lemma RedactionLabelIsInjective(m: nat, n: nat)
    requires RedactionLabel(m) == RedactionLabel(n)
    ensures m == n
  {
    var start := |REDACTED| + 1;
    assert RedactionLabel(m)[start..] == Decimal(m) && RedactionLabel(n)[start..] == Decimal(n);
    DecimalIsInjective(m, n);
  }

  lemma SuffixesDecorate(text: string, digest: string, n: nat)
    ensures Decorated(Discriminated(text, digest)) && Decorated(Numbered(text, n))
    ensures text <= Discriminated(text, digest) && text <= Numbered(text, n)
  {
    var numbered, decimal := Numbered(text, n), Decimal(n);
    assert numbered[|numbered| - 1] == decimal[|decimal| - 1];
    assert numbered[|text| + 1] == '#';
  }

  /** No decorated text is a label kept for a synthetic or a redacted bucket. */
  lemma DecoratedIsUnclaimed(rendering: Rendering, text: string)
    requires rendering.Plausible() && Decorated(text)
    ensures !rendering.Claimed(text)
  {
    if '#' in text && |text| > 9 {
      var i :| 0 <= i < |text| && text[i] == '#';
      assert i < 9 ==> text[..9][i] == text[i];
    }
  }

  /** The text itself if nobody has it, or else the first of its numbered forms that nobody has. */
  ghost predicate IsClaim(text: string, taken: set<string>, candidate: string) {
    && candidate !in taken
    && (candidate == text || (text in taken && exists n: nat :: candidate == Numbered(text, n) && TakenBelow(text, taken, n)))
  }

  ghost predicate TakenBelow(text: string, taken: set<string>, n: nat) {
    2 <= n && forall m: nat :: 2 <= m < n ==> Numbered(text, m) in taken
  }

  lemma NumbersNeverRepeat(text: string, tried: set<string>, n: nat)
    requires forall each :: each in tried ==> each == text || exists m: nat :: m < n && each == Numbered(text, m)
    ensures Numbered(text, n) !in tried
  {
    if Numbered(text, n) in tried {
      assert |Numbered(text, n)| > |text|;
      var m: nat :| m < n && Numbered(text, n) == Numbered(text, m);
      NumberedIsInjective(text, m, n);
    }
  }

  /** Count up until a form is free; numbers never repeat, so one is. */
  method Claim(text: string, taken: set<string>) returns (candidate: string)
    ensures IsClaim(text, taken, candidate)
    ensures text !in taken ==> candidate == text
  {
    candidate := text;
    var occurrence := 1;
    ghost var tried: set<string> := {};
    while candidate in taken
      invariant occurrence >= 1
      invariant if occurrence == 1 then candidate == text else candidate == Numbered(text, occurrence) && text in taken
      invariant occurrence > 1 ==> TakenBelow(text, taken, occurrence)
      invariant tried <= taken
      invariant forall each :: each in tried ==> each == text || exists n: nat :: n < occurrence && each == Numbered(text, n)
      invariant occurrence == 1 ==> tried == {}
      decreases |taken| - |tried|
    {
      if occurrence > 1 {
        NumbersNeverRepeat(text, tried, occurrence);
      }
      Subsets(tried + {candidate}, taken);
      tried := tried + {candidate};
      occurrence := occurrence + 1;
      candidate := Numbered(text, occurrence);
    }
  }

  // ----- telling colliding labels apart --------------------------------------------------------

  predicate Distinct<T(==)>(items: seq<T>) {
    forall i, j :: 0 <= i < j < |items| ==> items[i] != items[j]
  }

  function Shared(keys: seq<Key>, rendered: map<Key, string>, text: string): (count: nat)
    requires forall key :: key in keys ==> key in rendered
    ensures count <= |keys|
  {
    if keys == [] then 0
    else Shared(keys[..|keys| - 1], rendered, text) + if rendered[keys[|keys| - 1]] == text then 1 else 0
  }

  lemma {:induction false} UnsharedIsCountedOnce(keys: seq<Key>, rendered: map<Key, string>, key: Key)
    requires (forall k :: k in keys ==> k in rendered) && Distinct(keys) && key in rendered
    requires forall other :: other in keys && other != key ==> rendered[other] != rendered[key]
    ensures Shared(keys, rendered, rendered[key]) == if key in keys then 1 else 0
  {
    if keys == [] {
    } else {
      var n := |keys| - 1;
      assert keys == keys[..n] + [keys[n]];
      UnsharedIsCountedOnce(keys[..n], rendered, key);
    }
  }

  lemma {:induction false} CountedAtLeastOnce(keys: seq<Key>, rendered: map<Key, string>, key: Key)
    requires (forall k :: k in keys ==> k in rendered) && key in keys
    ensures Shared(keys, rendered, rendered[key]) >= 1
  {
    var n := |keys| - 1;
    assert keys == keys[..n] + [keys[n]];
    if keys[n] != key {
      CountedAtLeastOnce(keys[..n], rendered, key);
    }
  }

  lemma {:induction false} SharedIsCountedTwice(keys: seq<Key>, rendered: map<Key, string>, a: Key, b: Key)
    requires (forall k :: k in keys ==> k in rendered) && a in keys && b in keys && a != b && rendered[a] == rendered[b]
    ensures Shared(keys, rendered, rendered[a]) >= 2
  {
    var n := |keys| - 1;
    assert keys == keys[..n] + [keys[n]];
    if keys[n] == a {
      CountedAtLeastOnce(keys[..n], rendered, b);
    } else if keys[n] == b {
      CountedAtLeastOnce(keys[..n], rendered, a);
    } else {
      SharedIsCountedTwice(keys[..n], rendered, a, b);
    }
  }

  lemma CountedOnceExactlyWhenUnshared(keys: seq<Key>, rendered: map<Key, string>, key: Key)
    requires Distinct(keys) && (forall k :: k in keys <==> k in rendered) && key in keys
    ensures Shared(keys, rendered, rendered[key]) == 1 <==> Unshared(rendered, key)
  {
    if Unshared(rendered, key) {
      UnsharedIsCountedOnce(keys, rendered, key);
    } else {
      var other :| other in rendered && other != key && rendered[other] == rendered[key];
      SharedIsCountedTwice(keys, rendered, key, other);
    }
  }

  function Chosen(keys: seq<Key>, protected: set<Key>, inside: bool): (chosen: seq<Key>)
    requires Distinct(keys)
    ensures Distinct(chosen) && forall key :: key in chosen <==> key in keys && (key in protected <==> inside)
  {
    if keys == [] then []
    else (if (keys[0] in protected) == inside then [keys[0]] else []) + Chosen(keys[1..], protected, inside)
  }

  lemma ChosenAt(keys: seq<Key>, protected: set<Key>, inside: bool, i: nat) returns (a: nat)
    requires Distinct(keys) && i < |Chosen(keys, protected, inside)|
    ensures a < |keys| && keys[a] == Chosen(keys, protected, inside)[i]
  {
    assert Chosen(keys, protected, inside)[i] in Chosen(keys, protected, inside);
    a :| 0 <= a < |keys| && keys[a] == Chosen(keys, protected, inside)[i];
  }

  /** Whether the first key is chosen, as the number of places it takes. */
  function TakenFirst(keys: seq<Key>, protected: set<Key>, inside: bool): nat
    requires keys != []
  {
    if (keys[0] in protected) == inside then 1 else 0
  }

  lemma ChosenNext(keys: seq<Key>, protected: set<Key>, inside: bool, i: nat)
    requires keys != [] && Distinct(keys) && Distinct(keys[1..]) && i < |Chosen(keys, protected, inside)|
    ensures |Chosen(keys, protected, inside)| == TakenFirst(keys, protected, inside) + |Chosen(keys[1..], protected, inside)|
    ensures Chosen(keys, protected, inside)[i]
         == if i < TakenFirst(keys, protected, inside) then keys[0]
            else Chosen(keys[1..], protected, inside)[i - TakenFirst(keys, protected, inside)]
  {
  }

  /** Two chosen keys stand in the order they had. */
  lemma {:induction false} ChosenInOrder(keys: seq<Key>, protected: set<Key>, inside: bool, i: nat, j: nat)
    returns (a: nat, b: nat)
    requires Distinct(keys) && i < j < |Chosen(keys, protected, inside)|
    ensures a < b < |keys|
    ensures keys[a] == Chosen(keys, protected, inside)[i] && keys[b] == Chosen(keys, protected, inside)[j]
    decreases |keys|
  {
    var tail, skipped := keys[1..], TakenFirst(keys, protected, inside);
    ChosenNext(keys, protected, inside, i);
    ChosenNext(keys, protected, inside, j);
    if i >= skipped {
      a, b := ChosenInOrder(tail, protected, inside, i - skipped, j - skipped);
      a, b := a + 1, b + 1;
    } else {
      b := ChosenAt(tail, protected, inside, j - 1);
      a, b := 0, b + 1;
    }
  }

  /** Python's stable sort on "is not protected". */
  function ProtectedFirst(keys: seq<Key>, protected: set<Key>): (order: seq<Key>)
    requires Distinct(keys)
    ensures Distinct(order) && forall key :: key in order <==> key in keys
    ensures forall i, j :: 0 <= i < j < |order| && order[j] in protected ==> order[i] in protected
  {
    var inside, outside := Chosen(keys, protected, true), Chosen(keys, protected, false);
    assert forall i :: 0 <= i < |inside| ==> inside[i] in inside && inside[i] in protected;
    assert forall i :: 0 <= i < |outside| ==> outside[i] in outside && outside[i] !in protected;
    inside + outside
  }

  /** It is stable: protected keys come first, and otherwise keys take their turn in the order they were met. */
  lemma TurnsAreStable(keys: seq<Key>, protected: set<Key>, i: nat, j: nat) returns (a: nat, b: nat)
    requires Distinct(keys) && i < j < |ProtectedFirst(keys, protected)|
    ensures a < |keys| && b < |keys|
    ensures keys[a] == ProtectedFirst(keys, protected)[i] && keys[b] == ProtectedFirst(keys, protected)[j]
    ensures a < b || (keys[a] in protected && keys[b] !in protected)
  {
    var order, inside := ProtectedFirst(keys, protected), Chosen(keys, protected, true);
    var outside := Chosen(keys, protected, false);
    if j < |inside| {
      a, b := ChosenInOrder(keys, protected, true, i, j);
    } else if i >= |inside| {
      a, b := ChosenInOrder(keys, protected, false, i - |inside|, j - |inside|);
    } else {
      assert inside[i] in inside && outside[j - |inside|] in outside;
      a :| 0 <= a < |keys| && keys[a] == inside[i];
      b :| 0 <= b < |keys| && keys[b] == outside[j - |inside|];
    }
  }

  /** What a key's label may turn into: itself, or itself with a suffix. */
  ghost predicate Grown(text: string, final: string) {
    text <= final && (final == text || Decorated(final))
  }

  ghost predicate Unshared(rendered: map<Key, string>, key: Key)
    requires key in rendered
  {
    forall other :: other in rendered && other != key ==> rendered[other] != rendered[key]
  }

  function CountOf(counts: map<string, nat>, text: string): nat {
    if text in counts then counts[text] else 0
  }

  method CountTexts(keys: seq<Key>, rendered: map<Key, string>) returns (counts: map<string, nat>)
    requires forall key :: key in keys ==> key in rendered
    ensures forall text :: CountOf(counts, text) == Shared(keys, rendered, text)
  {
    counts := map[];
    for i := 0 to |keys|
      invariant forall text :: CountOf(counts, text) == Shared(keys[..i], rendered, text)
    {
      var text := rendered[keys[i]];
      ghost var before := counts;
      counts := counts[text := CountOf(counts, text) + 1];
      forall each ensures CountOf(counts, each) == Shared(keys[..i + 1], rendered, each) {
        assert keys[..i + 1][..i] == keys[..i];
        assert CountOf(before, each) == Shared(keys[..i], rendered, each);
      }
    }
    assert keys[..|keys|] == keys;
  }

  function SuffixedText(key: Key, text: string, alone: bool, digest: string -> string): (suffixed: string)
    ensures alone ==> suffixed == text
    ensures text <= suffixed
  {
    if alone then text else Discriminated(text, digest(if key.None? then "" else key.value))
  }

  lemma SuffixedTextGrows(key: Key, text: string, alone: bool, digest: string -> string)
    ensures Grown(text, SuffixedText(key, text, alone, digest))
  {
    SuffixesDecorate(text, digest(if key.None? then "" else key.value), 0);
  }

  /** Every text that more than one key would show, suffixed, except a protected key's. */
  ghost function SuffixedAll(rendered: map<Key, string>, protected: set<Key>, digest: string -> string)
    : (suffixed: map<Key, string>)
    ensures forall key :: key in suffixed <==> key in rendered
  {
    map key | key in rendered :: SuffixedText(key, rendered[key], Unshared(rendered, key) || key in protected, digest)
  }

  lemma SuffixedAllGrows(rendered: map<Key, string>, protected: set<Key>, digest: string -> string)
    ensures forall key :: key in rendered ==> Grown(rendered[key], SuffixedAll(rendered, protected, digest)[key])
  {
    forall key | key in rendered ensures Grown(rendered[key], SuffixedAll(rendered, protected, digest)[key]) {
      SuffixedTextGrows(key, rendered[key], Unshared(rendered, key) || key in protected, digest);
    }
  }

  lemma CountedTextsAreSuffixed(
      keys: seq<Key>, rendered: map<Key, string>, protected: set<Key>, digest: string -> string,
      counts: map<string, nat>, suffixed: map<Key, string>)
    requires Distinct(keys) && forall key :: key in keys <==> key in rendered
    requires forall text :: CountOf(counts, text) == Shared(keys, rendered, text)
    requires suffixed == map key | key in rendered ::
      SuffixedText(key, rendered[key], CountOf(counts, rendered[key]) == 1 || key in protected, digest)
    ensures suffixed == SuffixedAll(rendered, protected, digest)
  {
    forall key | key in rendered ensures suffixed[key] == SuffixedAll(rendered, protected, digest)[key] {
      CountedOnceExactlyWhenUnshared(keys, rendered, key);
    }
  }

  method Suffix(keys: seq<Key>, rendered: map<Key, string>, protected: set<Key>, digest: string -> string)
    returns (suffixed: map<Key, string>)
    requires Distinct(keys) && forall key :: key in keys <==> key in rendered
    ensures suffixed == SuffixedAll(rendered, protected, digest)
  {
    var counts := CountTexts(keys, rendered);
    suffixed := map key | key in rendered ::
      SuffixedText(key, rendered[key], CountOf(counts, rendered[key]) == 1 || key in protected, digest);
    CountedTextsAreSuffixed(keys, rendered, protected, digest, counts, suffixed);
  }

  lemma GrowthChains(text: string, suffixed: string, final: string)
    requires Grown(text, suffixed) && (final == suffixed || exists n :: final == Numbered(suffixed, n))
    ensures Grown(text, final)
  {
    if final != suffixed {
      var n :| final == Numbered(suffixed, n);
      SuffixesDecorate(suffixed, "", n);
    }
  }

  predicate ProtectedApart(rendered: map<Key, string>, protected: set<Key>) {
    forall a, b :: a in rendered && b in rendered && a in protected && b in protected && a != b ==>
      rendered[a] != rendered[b]
  }

  predicate Injective(labels: map<Key, string>) {
    forall a, b :: a in labels && b in labels && a != b ==> labels[a] != labels[b]
  }

  ghost predicate Taken(labels: map<Key, string>, taken: set<string>) {
    forall text :: text in taken <==> exists key :: key in labels && labels[key] == text
  }

  /** What one key's final label owes to the text it would have shown. */
  ghost predicate Kept(rendered: map<Key, string>, protected: set<Key>, key: Key, final: string)
    requires key in rendered
  {
    && Grown(rendered[key], final)
    && (key in protected ==> final == rendered[key])
    && (Unshared(rendered, key) && !Decorated(rendered[key]) ==> final == rendered[key])
  }

  ghost predicate AllKept(rendered: map<Key, string>, protected: set<Key>, labels: map<Key, string>) {
    forall key :: key in labels ==> key in rendered && Kept(rendered, protected, key, labels[key])
  }

  /** The label just claimed is new and is the key's own unless it had to give way. */
  lemma ClaimedIsKept(
      rendered: map<Key, string>, protected: set<Key>, labels: map<Key, string>, taken: set<string>, key: Key,
      suffixed: string, candidate: string)
    requires ProtectedApart(rendered, protected) && AllKept(rendered, protected, labels) && Taken(labels, taken)
    requires key in rendered && key !in labels
    requires key in protected ==> forall other :: other in labels ==> other in protected
    requires Grown(rendered[key], suffixed) && (key in protected || Unshared(rendered, key) ==> suffixed == rendered[key])
    requires IsClaim(suffixed, taken, candidate)
    ensures Kept(rendered, protected, key, candidate)
  {
    GrowthChains(rendered[key], suffixed, candidate);
    if suffixed in taken {
      var other :| other in labels && labels[other] == suffixed;
      assert Kept(rendered, protected, other, labels[other]);
    }
  }

  lemma TakenGrows(labels: map<Key, string>, taken: set<string>, key: Key, candidate: string)
    requires Taken(labels, taken) && Injective(labels) && key !in labels && candidate !in taken
    ensures Taken(labels[key := candidate], taken + {candidate}) && Injective(labels[key := candidate])
  {
    var after := labels[key := candidate];
    forall text ensures text in taken + {candidate} <==> exists each :: each in after && after[each] == text {
      if text in taken {
        var each :| each in labels && labels[each] == text;
        assert each in after && after[each] == text;
      } else if text == candidate {
        assert key in after && after[key] == text;
      }
    }
    forall other | other in labels ensures labels[other] != candidate {
      assert labels[other] in taken;
    }
  }

  function LabelsOf(labels: map<Key, string>, keys: seq<Key>): set<string> {
    set key | key in keys && key in labels :: labels[key]
  }

  /** Each key in its turn claims a form of its text that none before it has. */
  ghost predicate InTurn(order: seq<Key>, suffixed: map<Key, string>, labels: map<Key, string>) {
    forall i :: 0 <= i < |order| ==>
      && order[i] in suffixed && order[i] in labels
      && IsClaim(suffixed[order[i]], LabelsOf(labels, order[..i]), labels[order[i]])
  }

  lemma TakenAreLabels(labels: map<Key, string>, taken: set<string>, keys: seq<Key>)
    requires Taken(labels, taken) && forall key :: key in labels <==> key in keys
    ensures taken == LabelsOf(labels, keys)
  {
  }

  lemma InTurnGrows(order: seq<Key>, i: nat, suffixed: map<Key, string>, labels: map<Key, string>, candidate: string)
    requires i < |order| && Distinct(order) && InTurn(order[..i], suffixed, labels)
    requires (forall key :: key in labels <==> key in order[..i]) && order[i] in suffixed
    requires IsClaim(suffixed[order[i]], LabelsOf(labels, order[..i]), candidate)
    ensures InTurn(order[..i + 1], suffixed, labels[order[i] := candidate])
  {
    var after := labels[order[i] := candidate];
    assert order[i] !in order[..i];
    forall j | 0 <= j <= i ensures order[j] in suffixed && order[j] in after
      && IsClaim(suffixed[order[j]], LabelsOf(after, order[..i + 1][..j]), after[order[j]])
    {
      assert order[..i + 1][..j] == order[..j];
      LabelsBefore(labels, order, i, j, candidate);
      if j < i {
        assert order[..i][..j] == order[..j] && order[..i][j] == order[j];
      }
    }
  }

  lemma LabelsBefore(labels: map<Key, string>, order: seq<Key>, i: nat, j: nat, candidate: string)
    requires j <= i < |order| && Distinct(order)
    ensures LabelsOf(labels[order[i] := candidate], order[..j]) == LabelsOf(labels, order[..j])
  {
    assert order[i] !in order[..j];
  }

  /** The labels given out when `i` keys have had their turn. */
  ghost predicate Underway(
      rendered: map<Key, string>, protected: set<Key>, digest: string -> string, order: seq<Key>, i: nat,
      labels: map<Key, string>, taken: set<string>)
  {
    && i <= |order| && Distinct(order) && (forall key :: key in order <==> key in rendered)
    && ProtectedApart(rendered, protected)
    && (forall a, b :: 0 <= a < b < |order| && order[b] in protected ==> order[a] in protected)
    && (forall key :: key in labels <==> key in order[..i])
    && Taken(labels, taken) && Injective(labels) && AllKept(rendered, protected, labels)
    && InTurn(order[..i], SuffixedAll(rendered, protected, digest), labels)
  }

  lemma ClaimMovesOn(
      rendered: map<Key, string>, protected: set<Key>, digest: string -> string, order: seq<Key>, i: nat,
      labels: map<Key, string>, taken: set<string>, candidate: string)
    requires Underway(rendered, protected, digest, order, i, labels, taken) && i < |order|
    requires IsClaim(SuffixedAll(rendered, protected, digest)[order[i]], taken, candidate)
    ensures Underway(rendered, protected, digest, order, i + 1, labels[order[i] := candidate], taken + {candidate})
  {
    NextIsNew(order, protected, i);
    TakenGrows(labels, taken, order[i], candidate);
    ClaimKeepsTurns(rendered, protected, digest, order, i, labels, taken, candidate);
    ClaimKeepsTexts(rendered, protected, digest, order, i, labels, taken, candidate);
  }

  lemma ClaimKeepsTurns(
      rendered: map<Key, string>, protected: set<Key>, digest: string -> string, order: seq<Key>, i: nat,
      labels: map<Key, string>, taken: set<string>, candidate: string)
    requires Underway(rendered, protected, digest, order, i, labels, taken) && i < |order|
    requires IsClaim(SuffixedAll(rendered, protected, digest)[order[i]], taken, candidate)
    ensures InTurn(order[..i + 1], SuffixedAll(rendered, protected, digest), labels[order[i] := candidate])
  {
    TakenAreLabels(labels, taken, order[..i]);
    InTurnGrows(order, i, SuffixedAll(rendered, protected, digest), labels, candidate);
  }

  lemma ClaimKeepsTexts(
      rendered: map<Key, string>, protected: set<Key>, digest: string -> string, order: seq<Key>, i: nat,
      labels: map<Key, string>, taken: set<string>, candidate: string)
    requires Underway(rendered, protected, digest, order, i, labels, taken) && i < |order|
    requires IsClaim(SuffixedAll(rendered, protected, digest)[order[i]], taken, candidate)
    ensures AllKept(rendered, protected, labels[order[i] := candidate])
  {
    NextIsNew(order, protected, i);
    ClaimedTextIsKept(rendered, protected, digest, labels, taken, order[i], candidate);
    OneMoreKept(rendered, protected, labels, order[i], candidate);
  }

  lemma ClaimedTextIsKept(
      rendered: map<Key, string>, protected: set<Key>, digest: string -> string, labels: map<Key, string>,
      taken: set<string>, key: Key, candidate: string)
    requires ProtectedApart(rendered, protected) && AllKept(rendered, protected, labels) && Taken(labels, taken)
    requires key in rendered && key !in labels
    requires key in protected ==> forall other :: other in labels ==> other in protected
    requires IsClaim(SuffixedAll(rendered, protected, digest)[key], taken, candidate)
    ensures Kept(rendered, protected, key, candidate)
  {
    var suffixed := SuffixedText(key, rendered[key], Unshared(rendered, key) || key in protected, digest);
    SuffixedTextGrows(key, rendered[key], Unshared(rendered, key) || key in protected, digest);
    ClaimedIsKept(rendered, protected, labels, taken, key, suffixed, candidate);
  }

  lemma OneMoreKept(
      rendered: map<Key, string>, protected: set<Key>, labels: map<Key, string>, key: Key, candidate: string)
    requires AllKept(rendered, protected, labels) && key in rendered && Kept(rendered, protected, key, candidate)
    ensures AllKept(rendered, protected, labels[key := candidate])
  {
  }

  /** The next key takes the first form of its label that is free. */
  method Assign(
      ghost rendered: map<Key, string>, ghost protected: set<Key>, ghost digest: string -> string, order: seq<Key>,
      i: nat, labels: map<Key, string>, taken: set<string>, suffixed: string)
    returns (more: map<Key, string>, moreTaken: set<string>)
    requires Underway(rendered, protected, digest, order, i, labels, taken) && i < |order|
    requires order[i] in rendered && suffixed == SuffixedAll(rendered, protected, digest)[order[i]]
    ensures Underway(rendered, protected, digest, order, i + 1, more, moreTaken)
  {
    var candidate := Claim(suffixed, taken);
    ClaimMovesOn(rendered, protected, digest, order, i, labels, taken, candidate);
    more, moreTaken := labels[order[i] := candidate], taken + {candidate};
  }

  /** No two keys end up with one label, and a protected key's label is never the one displaced. */
  method Disambiguate(keys: seq<Key>, rendered: map<Key, string>, protected: set<Key>, digest: string -> string)
    returns (final: map<Key, string>)
    requires Distinct(keys) && (forall key :: key in keys <==> key in rendered) && ProtectedApart(rendered, protected)
    ensures forall key :: key in final <==> key in rendered
    ensures Injective(final) && AllKept(rendered, protected, final)
    ensures InTurn(ProtectedFirst(keys, protected), SuffixedAll(rendered, protected, digest), final)
  {
    var suffixed := Suffix(keys, rendered, protected, digest);
    var order := ProtectedFirst(keys, protected);
    var taken: set<string> := {};
    final := map[];
    for i := 0 to |order|
      invariant Underway(rendered, protected, digest, order, i, final, taken)
    {
      assert order[i] in order;
      final, taken := Assign(rendered, protected, digest, order, i, final, taken, suffixed[order[i]]);
    }
    WholeSlice(order);
  }

  lemma NextIsNew(order: seq<Key>, protected: set<Key>, i: nat)
    requires Distinct(order) && i < |order|
    requires forall a, b :: 0 <= a < b < |order| && order[b] in protected ==> order[a] in protected
    ensures order[i] in order && order[i] !in order[..i]
    ensures order[i] in protected ==> forall other :: other in order[..i] ==> other in protected
    ensures forall key :: key in order[..i + 1] <==> key in order[..i] || key == order[i]
  {
    assert order[..i + 1] == order[..i] + [order[i]];
  }

  // ----- the labels of a comparison ------------------------------------------------------------

  /** A redacted value's place among the redacted values in string order, counting from one. */
  function Place(keys: seq<Key>, rendering: Rendering, key: Key): nat
    requires key.Some?
  {
    1 + |set each | each in keys && rendering.Redacts(each) && Before(each.value, key.value)|
  }

  lemma PlacesIncrease(keys: seq<Key>, rendering: Rendering, a: Key, b: Key)
    requires a in keys && a.Some? && b.Some? && rendering.Redacts(a) && Before(a.value, b.value)
    ensures Place(keys, rendering, a) < Place(keys, rendering, b)
  {
    var low := set each | each in keys && rendering.Redacts(each) && Before(each.value, a.value);
    var high := set each | each in keys && rendering.Redacts(each) && Before(each.value, b.value);
    forall each | each in low ensures each in high {
      BeforeIsTransitive(each.value, a.value, b.value);
    }
    BeforeIsIrreflexive(a.value);
    Subsets(low + {a}, high);
  }

  lemma PlacesDiffer(keys: seq<Key>, rendering: Rendering, a: Key, b: Key)
    requires a in keys && b in keys && rendering.Redacts(a) && rendering.Redacts(b) && a != b
    ensures Place(keys, rendering, a) != Place(keys, rendering, b)
  {
    BeforeIsTotal(a.value, b.value);
    if Before(a.value, b.value) {
      PlacesIncrease(keys, rendering, a, b);
    } else {
      PlacesIncrease(keys, rendering, b, a);
    }
  }

  lemma PlacesInRange(keys: seq<Key>, rendering: Rendering, key: Key)
    requires key in RedactedKeys(keys, rendering)
    ensures 1 <= Place(keys, rendering, key) <= |RedactedKeys(keys, rendering)|
  {
    var before := set each | each in keys && rendering.Redacts(each) && Before(each.value, key.value);
    BeforeIsIrreflexive(key.value);
    Subsets(before + {key}, RedactedKeys(keys, rendering));
  }

  function PlacesOf(keys: seq<Key>, rendering: Rendering, some: set<Key>): set<nat> {
    set key | key in some && key.Some? :: Place(keys, rendering, key)
  }

  lemma {:induction false} AsManyPlaces(keys: seq<Key>, rendering: Rendering, some: set<Key>)
    requires forall key :: key in some ==> key in keys && rendering.Redacts(key)
    ensures |PlacesOf(keys, rendering, some)| == |some|
    decreases |some|
  {
    if some == {} {
      assert PlacesOf(keys, rendering, some) == {};
    } else {
      var key := AnyOf(some);
      AsManyPlaces(keys, rendering, some - {key});
      forall other | other in some - {key} ensures Place(keys, rendering, other) != Place(keys, rendering, key) {
        PlacesDiffer(keys, rendering, other, key);
      }
      assert PlacesOf(keys, rendering, some) == PlacesOf(keys, rendering, some - {key}) + {Place(keys, rendering, key)};
    }
  }

  lemma {:induction false} UpTo(n: nat) returns (s: set<nat>)
    ensures |s| == n && forall i: nat :: i in s <==> 1 <= i <= n
  {
    if n == 0 {
      s := {};
    } else {
      var rest := UpTo(n - 1);
      s := rest + {n};
    }
  }

  lemma SameSizeSame<T>(a: set<T>, b: set<T>)
    requires a <= b && |a| == |b|
    ensures a == b
  {
    assert b == a + (b - a);
  }

  /** Redacted values are numbered from one, without gaps. */
  lemma PlacesCountUp(keys: seq<Key>, rendering: Rendering, n: nat)
    ensures 1 <= n <= |RedactedKeys(keys, rendering)| <==>
      exists key :: key in RedactedKeys(keys, rendering) && Place(keys, rendering, key) == n
  {
    var redacted := RedactedKeys(keys, rendering);
    var all := UpTo(|redacted|);
    AsManyPlaces(keys, rendering, redacted);
    forall key | key in redacted ensures Place(keys, rendering, key) in all {
      PlacesInRange(keys, rendering, key);
    }
    SameSizeSame(PlacesOf(keys, rendering, redacted), all);
    assert n in PlacesOf(keys, rendering, redacted) <==> n in all;
  }

  /** And in the order of their source texts. */
  lemma PlacesFollow(keys: seq<Key>, rendering: Rendering, a: Key, b: Key)
    requires a in RedactedKeys(keys, rendering) && b in RedactedKeys(keys, rendering)
    ensures Place(keys, rendering, a) < Place(keys, rendering, b) <==> Before(a.value, b.value)
  {
    if Before(a.value, b.value) {
      PlacesIncrease(keys, rendering, a, b);
    } else if a != b {
      BeforeIsTotal(a.value, b.value);
      PlacesIncrease(keys, rendering, b, a);
    }
  }

  /** What a key would show if nothing collided. */
  function Rendered(keys: seq<Key>, rendering: Rendering, key: Key): string {
    if key.None? then UNLABELLED
    else if rendering.Redacts(key) then RedactionLabel(Place(keys, rendering, key))
    else
      var text := rendering.Shown(key.value);
      if rendering.Claimed(text) then Discriminated(text, rendering.discriminator(key.value)) else text
  }

  function RenderedAll(keys: seq<Key>, rendering: Rendering): map<Key, string> {
    map key | key in keys :: Rendered(keys, rendering, key)
  }

  function RedactedKeys(keys: seq<Key>, rendering: Rendering): set<Key> {
    set key | key in keys && rendering.Redacts(key)
  }

  ghost function SuffixedTexts(keys: seq<Key>, rendering: Rendering): map<Key, string> {
    SuffixedAll(RenderedAll(keys, rendering), RedactedKeys(keys, rendering), rendering.discriminator)
  }

  /** The labels this order of keys leads to. */
  ghost predicate Labelled(keys: seq<Key>, rendering: Rendering, labels: map<Key, string>) {
    && Distinct(keys) && Injective(labels) && (forall key :: key in labels <==> key in keys)
    && InTurn(ProtectedFirst(keys, RedactedKeys(keys, rendering)), SuffixedTexts(keys, rendering), labels)
  }

  lemma RedactedStandApart(keys: seq<Key>, rendering: Rendering)
    ensures ProtectedApart(RenderedAll(keys, rendering), RedactedKeys(keys, rendering))
  {
    var rendered, protected := RenderedAll(keys, rendering), RedactedKeys(keys, rendering);
    forall a, b | a in protected && b in protected && a != b ensures rendered[a] != rendered[b] {
      PlacesDiffer(keys, rendering, a, b);
      if rendered[a] == rendered[b] {
        RedactionLabelIsInjective(Place(keys, rendering, a), Place(keys, rendering, b));
      }
    }
  }

  method LabelAll(keys: seq<Key>, rendering: Rendering) returns (labels: map<Key, string>)
    requires Distinct(keys) && rendering.Plausible()
    ensures Labelled(keys, rendering, labels)
    ensures AllKept(RenderedAll(keys, rendering), RedactedKeys(keys, rendering), labels)
    ensures Injective(labels) && forall key :: key in labels ==> labels[key] != "other"
    ensures None in labels ==> labels[None] == "unlabelled"
    ensures forall key :: key in labels && key.Some? ==>
      if rendering.display.Some? && rendering.display.value(key.value) == [0 as char] + "redacted"
      then labels[key] == "redacted " + Decimal(Place(keys, rendering, key))
      else !rendering.Claimed(labels[key]) && rendering.Shown(key.value) <= labels[key]
  {
    var rendered, protected := RenderedAll(keys, rendering), RedactedKeys(keys, rendering);
    RedactedStandApart(keys, rendering);
    labels := Disambiguate(keys, rendered, protected, rendering.discriminator);
    forall key | key in labels ensures LabelOwes(keys, rendering, key, labels[key]) {
      LabelsOwe(keys, rendering, rendered, protected, key, labels[key]);
    }
  }

  ghost predicate LabelOwes(keys: seq<Key>, rendering: Rendering, key: Key, text: string) {
    && text != "other"
    && (key.None? ==> text == "unlabelled")
    && (rendering.Redacts(key) ==> text == "redacted " + Decimal(Place(keys, rendering, key)))
    && (key.Some? && !rendering.Redacts(key) ==> !rendering.Claimed(text) && rendering.Shown(key.value) <= text)
  }

  lemma RedactionLabelsStandApart(n: nat)
    ensures RedactionLabel(n) != OTHER && RedactionLabel(n) != UNLABELLED
  {
    assert RedactionLabel(n)[0] == REDACTED[0];
  }

  lemma RenderedIsUnclaimed(keys: seq<Key>, rendering: Rendering, key: Key)
    requires rendering.Plausible() && key.Some? && !rendering.Redacts(key)
    ensures !rendering.Claimed(Rendered(keys, rendering, key))
    ensures rendering.Shown(key.value) <= Rendered(keys, rendering, key)
  {
    var text := rendering.Shown(key.value);
    SuffixesDecorate(text, rendering.discriminator(key.value), 0);
    if rendering.Claimed(text) {
      DecoratedIsUnclaimed(rendering, Discriminated(text, rendering.discriminator(key.value)));
    }
  }

  lemma LabelsOwe(
      keys: seq<Key>, rendering: Rendering, rendered: map<Key, string>, protected: set<Key>, key: Key, text: string)
    requires rendering.Plausible() && key in rendered
    requires forall each :: each in rendered ==> rendered[each] == Rendered(keys, rendering, each)
    requires forall each :: each in protected <==> each in rendered && rendering.Redacts(each)
    requires Kept(rendered, protected, key, text)
    ensures LabelOwes(keys, rendering, key, text)
  {
    if key.None? {
      forall other | other in rendered && other != key ensures rendered[other] != UNLABELLED {
        if rendering.Redacts(other) {
          RedactionLabelsStandApart(Place(keys, rendering, other));
        } else {
          RenderedIsUnclaimed(keys, rendering, other);
        }
      }
    } else if rendering.Redacts(key) {
      RedactionLabelsStandApart(Place(keys, rendering, key));
    } else {
      RenderedIsUnclaimed(keys, rendering, key);
      if text != rendered[key] {
        DecoratedIsUnclaimed(rendering, text);
      }
    }
  }

  // ----- what a label is made of ---------------------------------------------------------------

  /** A text, or the text with a number of two or more after it. */
  ghost predicate NumberedForm(text: string, final: string) {
    final == text || exists n: nat :: n >= 2 && final == Numbered(text, n)
  }

  lemma NumberedFormReads(text: string, final: string)
    requires NumberedForm(text, final)
    ensures text <= final && (final != text ==>
              |final| > |text| + 2 && final[|text|..|text| + 2] == " #" && Numeral(final[|text| + 2..])
              && ValueOf(final[|text| + 2..]) >= 2)
  {
    if final != text {
      var n: nat :| n >= 2 && final == Numbered(text, n);
      assert final[|text| + 2..] == Decimal(n) && final[|text|..|text| + 2] == " #";
      DecimalReadsBack(n);
    }
  }

  /** Another key would show the same text. */
  ghost predicate SharesText(keys: seq<Key>, rendering: Rendering, key: Key) {
    exists other :: other in keys && other != key && Rendered(keys, rendering, other) == Rendered(keys, rendering, key)
  }

  lemma OwnTextIs(keys: seq<Key>, rendering: Rendering, value: string, shown: string, digest: string)
    requires !rendering.Redacts(Some(value)) && digest == rendering.discriminator(value)
    requires shown == if rendering.display.Some? then rendering.display.value(value) else value
    ensures Rendered(keys, rendering, Some(value)) ==
      if shown in {"other", "unlabelled", "redacted"} || rendering.GeneratedRedaction(shown)
      then shown + " (" + digest + ")" else shown
  {
  }

  lemma SharingMeans(keys: seq<Key>, rendering: Rendering, key: Key)
    requires key in keys
    ensures SharesText(keys, rendering, key) <==> !Unshared(RenderedAll(keys, rendering), key)
  {
    var rendered := RenderedAll(keys, rendering);
    if other :| other in keys && other != key && Rendered(keys, rendering, other) == Rendered(keys, rendering, key) {
      assert other in rendered && rendered[other] == rendered[key];
    }
  }

  lemma ToldApart(keys: seq<Key>, rendering: Rendering, value: string, own: string, digest: string)
    requires Some(value) in keys && !rendering.Redacts(Some(value)) && digest == rendering.discriminator(value)
    requires own == Rendered(keys, rendering, Some(value))
    ensures SuffixedTexts(keys, rendering)[Some(value)] ==
      if SharesText(keys, rendering, Some(value)) then own + " (" + digest + ")" else own
  {
    SharingMeans(keys, rendering, Some(value));
  }

  /**
   * An ordinary value shows its text; with its digest when that text is a reserved or generated label; with its
   * digest once more when another key would show the same; and with a number when that is still taken.
   */
  lemma LabelsAreMadeOf(
      keys: seq<Key>, rendering: Rendering, labels: map<Key, string>, value: string, shown: string, digest: string,
      own: string)
    requires Labelled(keys, rendering, labels) && Some(value) in keys && !rendering.Redacts(Some(value))
    requires digest == rendering.discriminator(value)
    requires shown == if rendering.display.Some? then rendering.display.value(value) else value
    requires own == if shown in {"other", "unlabelled", "redacted"} || rendering.GeneratedRedaction(shown)
                    then shown + " (" + digest + ")" else shown
    ensures NumberedForm(
              if SharesText(keys, rendering, Some(value)) then own + " (" + digest + ")" else own, labels[Some(value)])
  {
    OwnTextIs(keys, rendering, value, shown, digest);
    ToldApart(keys, rendering, value, own, digest);
    var suffixed := TurnOf(keys, rendering, labels, Some(value));
  }

  lemma TurnOf(keys: seq<Key>, rendering: Rendering, labels: map<Key, string>, key: Key) returns (suffixed: string)
    requires Labelled(keys, rendering, labels) && key in keys
    ensures suffixed == SuffixedTexts(keys, rendering)[key] && NumberedForm(suffixed, labels[key])
  {
    var order := ProtectedFirst(keys, RedactedKeys(keys, rendering));
    suffixed := SuffixedTexts(keys, rendering)[key];
    assert key in order;
    var i :| 0 <= i < |order| && order[i] == key;
    assert IsClaim(suffixed, LabelsOf(labels, order[..i]), labels[key]);
  }

  // ----- what the order of the keys can change -------------------------------------------------

  /** Where no two suffixed texts meet, nobody counts up. */
  lemma {:induction false} NobodyGivesWay(order: seq<Key>, suffixed: map<Key, string>, labels: map<Key, string>, i: nat)
    requires InTurn(order, suffixed, labels) && Distinct(order) && Injective(suffixed) && i <= |order|
    ensures forall j :: 0 <= j < i ==> labels[order[j]] == suffixed[order[j]]
  {
    if i == 0 {
    } else {
      NobodyGivesWay(order, suffixed, labels, i - 1);
      assert suffixed[order[i - 1]] !in LabelsOf(labels, order[..i - 1]);
    }
  }

  function Swap(a: Key, b: Key, key: Key): Key {
    if key == a then b else if key == b then a else key
  }

  function Swapped(a: Key, b: Key, keys: seq<Key>): (swapped: seq<Key>)
    ensures |swapped| == |keys| && forall i :: 0 <= i < |keys| ==> swapped[i] == Swap(a, b, keys[i])
  {
    seq(|keys|, i requires 0 <= i < |keys| => Swap(a, b, keys[i]))
  }

  lemma SwappedKeys(a: Key, b: Key, keys: seq<Key>)
    requires Distinct(keys) && a in keys && b in keys
    ensures Distinct(Swapped(a, b, keys)) && forall key :: key in Swapped(a, b, keys) <==> key in keys
  {
    var swapped := Swapped(a, b, keys);
    forall key ensures key in swapped <==> key in keys {
      if key in keys {
        var i :| 0 <= i < |keys| && keys[i] == Swap(a, b, key);
        assert swapped[i] == key;
      }
      if key in swapped {
        var i :| 0 <= i < |keys| && swapped[i] == key;
        assert keys[i] == Swap(a, b, key);
      }
    }
  }

  lemma ConcatSwaps(a: Key, b: Key, x: seq<Key>, y: seq<Key>)
    ensures Swapped(a, b, x + y) == Swapped(a, b, x) + Swapped(a, b, y)
  {
  }

  function OneChosen(key: Key, protected: set<Key>, inside: bool): seq<Key> {
    if (key in protected) == inside then [key] else []
  }

  lemma {:induction false} ChosenSwaps(a: Key, b: Key, keys: seq<Key>, protected: set<Key>, inside: bool)
    requires Distinct(keys) && Distinct(Swapped(a, b, keys)) && (a in protected <==> b in protected)
    ensures Chosen(Swapped(a, b, keys), protected, inside) == Swapped(a, b, Chosen(keys, protected, inside))
  {
    if keys == [] {
    } else {
      var first, rest := keys[0], keys[1..];
      assert Swapped(a, b, keys)[1..] == Swapped(a, b, rest);
      ChosenSwaps(a, b, rest, protected, inside);
      ConcatSwaps(a, b, OneChosen(first, protected, inside), Chosen(rest, protected, inside));
      assert Swapped(a, b, OneChosen(first, protected, inside)) == OneChosen(Swap(a, b, first), protected, inside);
    }
  }

  lemma OrderSwaps(a: Key, b: Key, keys: seq<Key>, protected: set<Key>)
    requires Distinct(keys) && Distinct(Swapped(a, b, keys)) && (a in protected <==> b in protected)
    ensures ProtectedFirst(Swapped(a, b, keys), protected) == Swapped(a, b, ProtectedFirst(keys, protected))
  {
    ChosenSwaps(a, b, keys, protected, true);
    ChosenSwaps(a, b, keys, protected, false);
    ConcatSwaps(a, b, Chosen(keys, protected, true), Chosen(keys, protected, false));
  }

  /** Two keys that show one text trade labels when they trade places. */
  function Traded(a: Key, b: Key, labels: map<Key, string>): map<Key, string>
    requires a in labels && b in labels
  {
    labels[a := labels[b]][b := labels[a]]
  }

  lemma TradedLabel(a: Key, b: Key, labels: map<Key, string>, key: Key)
    requires a in labels && b in labels && key in labels
    ensures Swap(a, b, key) in Traded(a, b, labels) && Traded(a, b, labels)[Swap(a, b, key)] == labels[key]
  {
  }

  lemma TradedLabels(a: Key, b: Key, labels: map<Key, string>, order: seq<Key>)
    requires a in labels && b in labels && forall key :: key in order ==> key in labels
    ensures LabelsOf(Traded(a, b, labels), Swapped(a, b, order)) == LabelsOf(labels, order)
  {
    var swapped, traded := Swapped(a, b, order), Traded(a, b, labels);
    forall text | text in LabelsOf(labels, order) ensures text in LabelsOf(traded, swapped) {
      var key :| key in order && labels[key] == text;
      var i :| 0 <= i < |order| && order[i] == key;
      TradedLabel(a, b, labels, key);
      assert swapped[i] in swapped;
    }
    forall text | text in LabelsOf(traded, swapped) ensures text in LabelsOf(labels, order) {
      var key :| key in swapped && key in traded && traded[key] == text;
      var i :| 0 <= i < |swapped| && swapped[i] == key;
      TradedLabel(a, b, labels, order[i]);
      assert order[i] in order;
    }
  }

  lemma TradedIsInTurn(a: Key, b: Key, order: seq<Key>, suffixed: map<Key, string>, labels: map<Key, string>)
    requires InTurn(order, suffixed, labels) && a in labels && b in labels
    requires a in suffixed && b in suffixed && suffixed[a] == suffixed[b]
    ensures InTurn(Swapped(a, b, order), suffixed, Traded(a, b, labels))
  {
    var swapped, traded := Swapped(a, b, order), Traded(a, b, labels);
    forall i | 0 <= i < |order|
      ensures swapped[i] in suffixed && swapped[i] in traded
      ensures IsClaim(suffixed[swapped[i]], LabelsOf(traded, swapped[..i]), traded[swapped[i]])
    {
      assert swapped[..i] == Swapped(a, b, order[..i]);
      TradedLabels(a, b, labels, order[..i]);
      TradedLabel(a, b, labels, order[i]);
    }
  }

  /** Another order of the same keys changes nothing but whose turn it is. */
  ghost predicate SameKeys(keys: seq<Key>, other: seq<Key>) {
    Distinct(keys) && Distinct(other) && forall key :: key in keys <==> key in other
  }

  lemma TextsIgnoreOrder(keys: seq<Key>, other: seq<Key>, rendering: Rendering)
    requires SameKeys(keys, other)
    ensures RenderedAll(keys, rendering) == RenderedAll(other, rendering)
    ensures RedactedKeys(keys, rendering) == RedactedKeys(other, rendering)
    ensures SuffixedTexts(keys, rendering) == SuffixedTexts(other, rendering)
  {
    forall key | key in keys ensures Rendered(keys, rendering, key) == Rendered(other, rendering, key) {
      if rendering.Redacts(key) {
        assert (set each | each in keys && rendering.Redacts(each) && Before(each.value, key.value))
          == set each | each in other && rendering.Redacts(each) && Before(each.value, key.value);
      }
    }
  }

  lemma RedactionLabelIsClaimed(rendering: Rendering, n: nat)
    requires rendering.Plausible()
    ensures rendering.Claimed(RedactionLabel(n)) && RedactionLabel(n) != UNLABELLED
  {
    var text := RedactionLabel(n);
    RedactionLabelsStandApart(n);
    assert text[..9] == "redacted " && text[9..] == Decimal(n);
    forall i | 9 <= i < |text| ensures rendering.digit(text[i]) {
      assert text[i] == Decimal(n)[i - 9];
    }
  }

  lemma OrdinaryTextIsUnclaimed(keys: seq<Key>, rendering: Rendering, key: Key)
    requires rendering.Plausible() && key in keys && !rendering.Redacts(key)
    ensures var text := SuffixedTexts(keys, rendering)[key]; text == UNLABELLED || !rendering.Claimed(text)
  {
    var rendered, protected := RenderedAll(keys, rendering), RedactedKeys(keys, rendering);
    var text := SuffixedTexts(keys, rendering)[key];
    if text != rendered[key] {
      SuffixedAllGrows(rendered, protected, rendering.discriminator);
      assert Decorated(text);
      DecoratedIsUnclaimed(rendering, text);
    } else if key.Some? {
      RenderedIsUnclaimed(keys, rendering, key);
    }
  }

  /** Only ordinary values can show one text: redacted ones have texts of their own. */
  lemma SharersAreOrdinary(keys: seq<Key>, rendering: Rendering, a: Key, b: Key)
    requires rendering.Plausible() && a in keys && b in keys && a != b
    requires SuffixedTexts(keys, rendering)[a] == SuffixedTexts(keys, rendering)[b]
    ensures a !in RedactedKeys(keys, rendering)
  {
    RedactedStandApart(keys, rendering);
    if rendering.Redacts(a) {
      RedactionLabelIsClaimed(rendering, Place(keys, rendering, a));
      if !rendering.Redacts(b) {
        OrdinaryTextIsUnclaimed(keys, rendering, b);
      }
    }
  }

  /**
   * The labels depend on the order the values were met in exactly when two of them still show one text
   * after their digests: then whoever comes second is numbered, and otherwise nobody is.
   */
  lemma OrderMattersExactlyWhenTextsMeet(keys: seq<Key>, rendering: Rendering, labels: map<Key, string>)
    requires rendering.Plausible() && Labelled(keys, rendering, labels)
    ensures (forall other, labels' :: SameKeys(keys, other) && Labelled(other, rendering, labels') ==> labels' == labels)
      <==> Injective(SuffixedTexts(keys, rendering))
  {
    if Injective(SuffixedTexts(keys, rendering)) {
      forall other, labels' | SameKeys(keys, other) && Labelled(other, rendering, labels') ensures labels' == labels {
        TextsIgnoreOrder(keys, other, rendering);
        LabelsAreTexts(keys, rendering, labels);
        LabelsAreTexts(other, rendering, labels');
      }
    } else {
      var a, b :| a in keys && b in keys && a != b && SuffixedTexts(keys, rendering)[a] == SuffixedTexts(keys, rendering)[b];
      TradedIsLabelled(keys, rendering, labels, a, b);
    }
  }

  lemma LabelsAreTexts(keys: seq<Key>, rendering: Rendering, labels: map<Key, string>)
    requires Labelled(keys, rendering, labels) && Injective(SuffixedTexts(keys, rendering))
    ensures labels == SuffixedTexts(keys, rendering)
  {
    var order := ProtectedFirst(keys, RedactedKeys(keys, rendering));
    NobodyGivesWay(order, SuffixedTexts(keys, rendering), labels, |order|);
    forall key | key in keys ensures labels[key] == SuffixedTexts(keys, rendering)[key] {
      assert key in order;
    }
  }

  lemma TradedIsLabelled(keys: seq<Key>, rendering: Rendering, labels: map<Key, string>, a: Key, b: Key)
    requires rendering.Plausible() && Labelled(keys, rendering, labels) && a in keys && b in keys && a != b
    requires SuffixedTexts(keys, rendering)[a] == SuffixedTexts(keys, rendering)[b]
    ensures SameKeys(keys, Swapped(a, b, keys)) && Labelled(Swapped(a, b, keys), rendering, Traded(a, b, labels))
    ensures Traded(a, b, labels) != labels
  {
    var other := Swapped(a, b, keys);
    SwappedKeys(a, b, keys);
    TextsIgnoreOrder(keys, other, rendering);
    SharersAreOrdinary(keys, rendering, a, b);
    SharersAreOrdinary(keys, rendering, b, a);
    OrderSwaps(a, b, keys, RedactedKeys(keys, rendering));
    TradedIsInTurn(
      a, b, ProtectedFirst(keys, RedactedKeys(keys, rendering)), SuffixedTexts(keys, rendering), labels);
    TradedIsInjective(a, b, labels);
  }

  lemma TradedIsInjective(a: Key, b: Key, labels: map<Key, string>)
    requires Injective(labels) && a in labels && b in labels && a != b
    ensures Injective(Traded(a, b, labels)) && Traded(a, b, labels).Keys == labels.Keys
    ensures Traded(a, b, labels) != labels
  {
    assert Traded(a, b, labels)[a] == labels[b];
  }

  /** Whatever the order, redacted values and texts shown once, without a suffix of their own, keep theirs. */
  lemma SettledLabels(
      keys: seq<Key>, other: seq<Key>, rendering: Rendering, x: map<Key, string>, y: map<Key, string>, key: Key)
    requires SameKeys(keys, other) && key in keys && key in x && key in y
    requires AllKept(RenderedAll(keys, rendering), RedactedKeys(keys, rendering), x)
    requires AllKept(RenderedAll(other, rendering), RedactedKeys(other, rendering), y)
    requires rendering.Redacts(key)
      || (Unshared(RenderedAll(keys, rendering), key) && !Decorated(Rendered(keys, rendering, key)))
    ensures x[key] == y[key]
  {
    TextsIgnoreOrder(keys, other, rendering);
    assert Kept(RenderedAll(keys, rendering), RedactedKeys(keys, rendering), key, x[key]);
    assert Kept(RenderedAll(keys, rendering), RedactedKeys(keys, rendering), key, y[key]);
  }
}
