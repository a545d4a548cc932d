/** Decimal numerals, the order of strings by code point, and what counts as blank. */
module Texts {
  function Digit(d: nat): (c: char)
    requires d < 10
    ensures '0' <= c <= '9' && c as int - '0' as int == d
  {
    (d + '0' as int) as char
  }

  /** How a count is printed. */
  function Decimal(n: nat): (text: string)
    ensures |text| > 0 && Numeral(text)
  {
    if n < 10 then [Digit(n)] else Decimal(n / 10) + [Digit(n % 10)]
  }

  /** Ten to the `n`. */
  function Power(n: nat): (p: nat)
    ensures p > 0
  {
    if n == 0 then 1 else 10 * Power(n - 1)
  }

  /** Digits only. */
  predicate Numeral(text: string) {
    forall i :: 0 <= i < |text| ==> '0' <= text[i] <= '9'
  }

  function ValueOf(text: string): nat
    requires Numeral(text)
  {
    if text == [] then 0 else ValueOf(text[..|text| - 1]) * 10 + (text[|text| - 1] as int - '0' as int)
  }

  lemma {:induction false} DecimalReadsBack(n: nat)
    ensures ValueOf(Decimal(n)) == n
  {
    if n < 10 {
      assert ValueOf([]) == 0;
    } else {
      DecimalReadsBack(n / 10);
      assert Decimal(n)[..|Decimal(n)| - 1] == Decimal(n / 10);
    }
  }

  /** A numeral that says `n`. */
  predicate Reads(text: string, n: nat) {
    text != "" && Numeral(text) && ValueOf(text) == n
  }

  /** Python's `text.split(c)`. */
  function Split(text: string, c: char): (pieces: seq<string>)
    ensures pieces != []
  {
    if text == "" then [""]
    else
      var rest := Split(text[1..], c);
      if text[0] == c then [""] + rest else [[text[0]] + rest[0]] + rest[1..]
  }

  lemma {:induction false} SplitPiece(piece: string, rest: string, c: char)
    requires c !in piece
    ensures Split(piece + ([c] + rest), c) == [piece] + Split(rest, c)
  {
    if piece == "" {
      assert piece + ([c] + rest) == [c] + rest && ([c] + rest)[1..] == rest;
    } else {
      SplitPiece(piece[1..], rest, c);
      assert (piece + ([c] + rest))[1..] == piece[1..] + ([c] + rest);
      assert [piece[0]] + piece[1..] == piece;
    }
  }

  lemma {:induction false} SplitWhole(piece: string, c: char)
    requires c !in piece
    ensures Split(piece, c) == [piece]
  {
    if piece == "" {
    } else {
      SplitWhole(piece[1..], c);
      assert [piece[0]] + piece[1..] == piece;
    }
  }

  lemma DecimalIsInjective(m: nat, n: nat)
    requires Decimal(m) == Decimal(n)
    ensures m == n
  {
    DecimalReadsBack(m);
    DecimalReadsBack(n);
  }

  /** The order Python sorts strings in. */
  predicate Before(a: string, b: string) {
    b != [] && (a == [] || a[0] < b[0] || (a[0] == b[0] && Before(a[1..], b[1..])))
  }

  lemma {:induction false} BeforeIsTransitive(a: string, b: string, c: string)
    requires Before(a, b) && Before(b, c)
    ensures Before(a, c)
  {
    if a != [] && a[0] == b[0] && b[0] == c[0] {
      BeforeIsTransitive(a[1..], b[1..], c[1..]);
    }
  }

  lemma {:induction false} BeforeIsTotal(a: string, b: string)
    ensures a == b || Before(a, b) || Before(b, a)
  {
    if a != [] && b != [] && a[0] == b[0] {
      BeforeIsTotal(a[1..], b[1..]);
      assert a == [a[0]] + a[1..] && b == [b[0]] + b[1..];
    }
  }

  lemma {:induction false} BeforeIsIrreflexive(a: string)
    ensures !Before(a, a)
  {
    if a == [] {
    } else {
      BeforeIsIrreflexive(a[1..]);
    }
  }

  /** The characters `str.strip` removes. */
  predicate IsSpace(c: char) {
    var n := c as int;
    || 0x09 <= n <= 0x0d || 0x1c <= n <= 0x20 || n == 0x85 || n == 0xa0 || n == 0x1680
    || 0x2000 <= n <= 0x200a || n == 0x2028 || n == 0x2029 || n == 0x202f || n == 0x205f || n == 0x3000
  }

  predicate IsBlank(text: string) {
    forall i :: 0 <= i < |text| ==> IsSpace(text[i])
  }

  /** All twenty-nine of them. */
  lemma SpacesAre(c: char)
    ensures IsSpace(c) <==> c as int in {
      9, 10, 11, 12, 13, 28, 29, 30, 31, 32, 133, 160, 5760, 8192, 8193, 8194, 8195, 8196, 8197, 8198, 8199, 8200, 8201,
      8202, 8232, 8233, 8239, 8287, 12288}
  {
  }
}
