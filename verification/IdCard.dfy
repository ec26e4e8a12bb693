/** Validation of identity card numbers: format and the check character of ISO/IEC 7064:2003, MOD 11-2. */
module IdCard {
  import opened Wrappers
  import opened Text

  const WEIGHTS: seq<int> := [7, 9, 10, 5, 8, 4, 2, 1, 6, 3, 7, 9, 10, 5, 8, 4, 2]
  const CHECK_CHARS: string := "10X98765432"

  function Upper(c: char): char {
    if 'a' <= c <= 'z' then (c as int - 32) as char else c
  }

  function UpperAll(s: string): (r: string)
    ensures |r| == |s|
  {
    if s == "" then "" else [Upper(s[0])] + UpperAll(s[1..])
  }

  function Normalize(value: string): string {
    UpperAll(Trim(value))
  }

  /** The regular expression for the number: area, date of birth, serial number, check character. */
  predicate WellFormed(card: string) {
    && |card| == 18
    && AllDigits(card[..17]) && (IsDigit(card[17]) || card[17] == 'X')
    && card[0] != '0'
    && card[6..8] in {"19", "20"}
    && ((card[10] == '0' && card[11] != '0') || card[10..12] in {"10", "11", "12"})
    && ((card[12] == '0' && card[13] != '0') || card[12] in {'1', '2'} || card[12..14] in {"30", "31"})
  }

  lemma TwoDigits(s: string)
    requires |s| == 2 && AllDigits(s)
    ensures Value(s) == 10 * DigitValue(s[0]) + DigitValue(s[1])
  {
    assert s[..1] == [s[0]] && Value(s[..1]) == DigitValue(s[0]) by { assert s[..1][..0] == ""; }
  }

  /** The same by value: an area that does not start with zero, a year from 1900 to 2099, a month and a day of a
      calendar, and digits but for the check character. */
  lemma WellFormedByValue(card: string)
    ensures WellFormed(card) <==>
            && |card| == 18 && AllDigits(card[..17]) && (IsDigit(card[17]) || card[17] == 'X')
            && AllDigits(card[6..8]) && AllDigits(card[10..12]) && AllDigits(card[12..14])
            && card[0] != '0' && 19 <= Value(card[6..8]) <= 20
            && 1 <= Value(card[10..12]) <= 12 && 1 <= Value(card[12..14]) <= 31
  {
    if |card| == 18 && AllDigits(card[..17]) {
      assert forall i :: 0 <= i < 17 ==> card[i] == card[..17][i];
      TwoDigits(card[6..8]);
      TwoDigits(card[10..12]);
      TwoDigits(card[12..14]);
      assert card[6..8] == [card[6], card[7]] && card[10..12] == [card[10], card[11]];
      assert card[12..14] == [card[12], card[13]];
      assert forall c: char :: IsDigit(c) ==> c as int == DigitValue(c) + '0' as int;
    }
  }

  function Total(card: string, n: nat): int
    requires n <= 17 <= |card| && AllDigits(card[..17])
  {
    if n == 0 then 0
    else
      assert card[n - 1] == card[..17][n - 1];
      Total(card, n - 1) + DigitValue(card[n - 1]) * WEIGHTS[n - 1]
  }

  function Validate(value: string): Result<string> {
    var card := Normalize(value);
    if !WellFormed(card) then Error("malformed")
    else if CHECK_CHARS[Total(card, 17) % 11] != card[17] then Error("check character")
    else Ok(card)
  }

  predicate Accepted(card: string) {
    WellFormed(card) && CHECK_CHARS[Total(card, 17) % 11] == card[17]
  }

  /** The value of a character, the check character X counting ten. */
  function ValueOf(c: char): int
    requires IsDigit(c) || c == 'X'
  {
    if c == 'X' then 10 else DigitValue(c)
  }

  /** The values of a number's characters. */
  function Values(card: string): (v: seq<int>)
    requires WellFormed(card)
    ensures |v| == 18 && forall i :: 0 <= i < 18 ==> (IsDigit(card[i]) || card[i] == 'X') && v[i] == ValueOf(card[i])
  {
    assert forall i :: 0 <= i < 17 ==> card[i] == card[..17][i];
    seq(18, i requires 0 <= i < 18 => ValueOf(card[i]))
  }

  function Weight(i: nat): (w: int)
    requires i < 18
    ensures 1 <= w <= 10
  {
    if i == 17 then 1 else WEIGHTS[i]
  }

  function PowerOfTwo(n: nat): nat {
    if n == 0 then 1 else 2 * PowerOfTwo(n - 1)
  }

  lemma Doubled(p: nat)
    ensures 2 * p % 11 == 2 * (p % 11) % 11
  {
  }

  lemma WeightDoubles(i: nat)
    requires i < 17
    ensures Weight(i) == 2 * Weight(i + 1) % 11
  {
  }

  /** The weights are the standard's: powers of two modulo 11, the check character's being the lowest. */
  lemma {:induction false} WeightsArePowers(i: nat)
    requires i < 18
    ensures Weight(i) == PowerOfTwo(17 - i) % 11
    decreases 17 - i
  {
    if i < 17 {
      hide Weight;
      WeightsArePowers(i + 1);
      WeightDoubles(i);
      Doubled(PowerOfTwo(16 - i));
    }
  }

  /** The weighted sum of the first n values. */
  function Weighted(v: seq<int>, n: nat): int
    requires n <= 18 == |v|
  {
    if n == 0 then 0 else Weighted(v, n - 1) + v[n - 1] * Weight(n - 1)
  }

  lemma TotalWeighted(card: string, n: nat)
    requires WellFormed(card) && n <= 17
    ensures Weighted(Values(card), n) == Total(card, n)
  {
  }

  /** The check character table, by remainder. */
  lemma CheckTable(r: nat, c: char)
    requires r < 11 && (IsDigit(c) || c == 'X')
    ensures CHECK_CHARS[r] == c <==> (if c == 'X' then 10 else DigitValue(c)) == (12 - r) % 11
  {
  }

  lemma Remainders(total: int, v: int)
    requires 0 <= v <= 10
    ensures (total + v) % 11 == 1 <==> v == (12 - total % 11) % 11
  {
  }

  /** A well-formed number is accepted exactly when its weighted sum leaves remainder 1. */
  lemma AcceptedByRemainder(card: string)
    requires WellFormed(card)
    ensures Accepted(card) <==> Weighted(Values(card), 18) % 11 == 1
  {
    TotalWeighted(card, 17);
    var v := Values(card);
    hide Total, Values;
    CheckTable(Total(card, 17) % 11, card[17]);
    assert Weighted(v, 18) == Weighted(v, 17) + v[17];
    Remainders(Total(card, 17), v[17]);
  }

  /** Validation returns the normalised number exactly when it is well formed and its weighted sum leaves one. */
  lemma ValidateExact(value: string, c: string)
    ensures Validate(value) == Ok(c) <==>
            c == Normalize(value) && WellFormed(c) && Weighted(Values(c), 18) % 11 == 1
  {
    if WellFormed(Normalize(value)) { AcceptedByRemainder(Normalize(value)); }
  }

  /** Changing one value changes the sum by the weighted difference. */
  lemma OneChange(c: seq<int>, d: seq<int>, i: nat, n: nat)
    requires |c| == |d| == 18 && i < 18 && n <= 18
    requires forall j :: 0 <= j < 18 && j != i ==> c[j] == d[j]
    ensures Weighted(d, n) - Weighted(c, n) == if i < n then (d[i] - c[i]) * Weight(i) else 0
  {
    hide Weight;
    if n > 0 { OneChange(c, d, i, n - 1); }
  }

  lemma NoMultipleNat(v: int, y: int)
    requires 1 <= v <= 10 && 1 <= y <= 10
    ensures (v * y) % 11 != 0
  {
    if v == 1 { assert v * y == y; } else if v == 2 { assert v * y == 2 * y; }
    else if v == 3 { assert v * y == 3 * y; } else if v == 4 { assert v * y == 4 * y; }
    else if v == 5 { assert v * y == 5 * y; } else if v == 6 { assert v * y == 6 * y; }
    else if v == 7 { assert v * y == 7 * y; } else if v == 8 { assert v * y == 8 * y; }
    else if v == 9 { assert v * y == 9 * y; } else { assert v * y == 10 * y; }
  }

  lemma Signs(v: int, y: int)
    ensures (-v) * y == -(v * y) && v * (-y) == -(v * y) && (-v) * (-y) == v * y
  {
  }

  lemma NegatedRemainder(a: int)
    requires a % 11 != 0
    ensures (-a) % 11 != 0
  {
  }

  lemma NoMultiple(w: int, x: int)
    requires -10 <= w <= 10 && -10 <= x <= 10 && w != 0 && x != 0
    ensures (w * x) % 11 != 0
  {
    var v := if w < 0 then -w else w;
    var y := if x < 0 then -x else x;
    NoMultipleNat(v, y);
    NegatedRemainder(v * y);
    Signs(v, y);
  }

  lemma Factored(x: int, y: int, p: int, q: int)
    requires y == -x
    ensures x * p + y * q == (p - q) * x
  {
  }

  lemma WeightsDiffer(i: nat)
    requires i < 17
    ensures Weight(i) != Weight(i + 1)
  {
  }

  /** Shifting a sum by something that is no multiple of 11 changes its remainder. */
  lemma RemainderMoves(a: int, b: int)
    requires (b - a) % 11 != 0
    ensures a % 11 != b % 11
  {
  }

  predicate SmallValues(v: seq<int>) {
    |v| == 18 && forall i :: 0 <= i < 18 ==> 0 <= v[i] <= 10
  }

  lemma OneChangeDetected(v: seq<int>, w: seq<int>, i: nat)
    requires SmallValues(v) && SmallValues(w) && i < 18 && v[i] != w[i]
    requires forall j :: 0 <= j < 18 && j != i ==> v[j] == w[j]
    ensures Weighted(v, 18) % 11 != Weighted(w, 18) % 11
  {
    hide Weighted, Weight;
    OneChange(v, w, i, 18);
    var x := w[i] - v[i];
    NoMultiple(Weight(i), x);
    assert x * Weight(i) == Weight(i) * x;
    RemainderMoves(Weighted(v, 18), Weighted(w, 18));
  }

  lemma SwapDetected(v: seq<int>, w: seq<int>, i: nat)
    requires SmallValues(v) && SmallValues(w) && i < 17 && v[i] != v[i + 1] && w[i] == v[i + 1] && w[i + 1] == v[i]
    requires forall j :: 0 <= j < 18 && j != i && j != i + 1 ==> v[j] == w[j]
    ensures Weighted(v, 18) % 11 != Weighted(w, 18) % 11
  {
    hide Weighted, Weight;
    var u := v[i := w[i]];
    OneChange(v, u, i, 18);
    OneChange(u, w, i + 1, 18);
    WeightsDiffer(i);
    var x := w[i] - v[i];
    var p, q := Weight(i), Weight(i + 1);
    NoMultiple(p - q, x);
    assert Weighted(w, 18) - Weighted(v, 18) == x * p + (v[i] - v[i + 1]) * q;
    Factored(x, v[i] - v[i + 1], p, q);
    RemainderMoves(Weighted(v, 18), Weighted(w, 18));
  }

  lemma ValuesFaithful(c: string, i: nat, d: string, j: nat)
    requires WellFormed(c) && WellFormed(d) && i < 18 && j < 18
    ensures SmallValues(Values(c)) && SmallValues(Values(d))
    ensures (c[i] == 'X' ==> i == 17) && (d[j] == 'X' ==> j == 17)
    ensures Values(c)[i] == Values(d)[j] <==> c[i] == d[j]
  {
  }

  /** Main result: an accepted number with one character changed is not accepted. */
  lemma SingleErrorCaught(c: string, d: string, i: nat)
    requires Accepted(c) && |d| == 18 && i < 18 && c[i] != d[i]
    requires forall j :: 0 <= j < 18 && j != i ==> c[j] == d[j]
    ensures !Accepted(d)
  {
    if WellFormed(d) {
      AcceptedByRemainder(c);
      AcceptedByRemainder(d);
      hide WellFormed, Accepted, Values, Weighted;
      forall j: nat | j < 18 ensures Values(c)[j] == Values(d)[j] <==> c[j] == d[j] {
        ValuesFaithful(c, j, d, j);
      }
      ValuesFaithful(c, i, d, i);
      OneChangeDetected(Values(c), Values(d), i);
    }
  }

  /** Main result: an accepted number with two different neighbours exchanged is not accepted. */
  lemma SwapCaught(c: string, d: string, i: nat)
    requires Accepted(c) && |d| == 18 && i < 17 && c[i] != c[i + 1] && d[i] == c[i + 1] && d[i + 1] == c[i]
    requires forall j :: 0 <= j < 18 && j != i && j != i + 1 ==> c[j] == d[j]
    ensures !Accepted(d)
  {
    if WellFormed(d) {
      AcceptedByRemainder(c);
      AcceptedByRemainder(d);
      hide WellFormed, Accepted, Values, Weighted;
      forall j: nat | j < 18 ensures Values(c)[j] == Values(d)[j] <==> c[j] == d[j] {
        ValuesFaithful(c, j, d, j);
      }
      ValuesFaithful(c, i, c, i + 1);
      ValuesFaithful(d, i, c, i + 1);
      ValuesFaithful(d, i + 1, c, i);
      SwapDetected(Values(c), Values(d), i);
    }
  }
}
