/** Converting a wall-clock time in a zone to the instant that shows it, by iterated correction. */
module WallTime {

  /** The offset of a zone at each instant, in milliseconds: wall time minus universal time. */
  type Zone = int -> int

  function Wall(zone: Zone, utc: int): int {
    utc + zone(utc)
  }

  /** Between lo and hi the offset is a before the transition instant and b from it on. */
  ghost predicate OneTransition(zone: Zone, lo: int, hi: int, at: int, a: int, b: int) {
    forall u :: lo <= u <= hi ==> zone(u) == if u < at then a else b
  }

  /** The instants the correction can visit lie between lo and hi. */
  predicate InRange(target: int, lo: int, hi: int, a: int, b: int) {
    lo <= target <= hi && lo <= target - a <= hi && lo <= target - b <= hi
  }

  /** Some instant between lo and hi shows the wall time. */
  ghost predicate Shown(zone: Zone, target: int, lo: int, hi: int) {
    exists u :: lo <= u <= hi && Wall(zone, u) == target
  }

  const MAX_CHECKS: nat := 4

  /** The instant reached after n corrections, stopping as soon as a check succeeds. */
  function Corrected(zone: Zone, target: int, n: nat): int {
    if n == 0 then target
    else
      var u := Corrected(zone, target, n - 1);
      u + (target - Wall(zone, u))
  }

  /** Once the wall time is right, further corrections change nothing. */
  lemma Settled(zone: Zone, target: int, m: nat, n: nat)
    requires m <= n && Wall(zone, Corrected(zone, target, m)) == target
    ensures Corrected(zone, target, n) == Corrected(zone, target, m)
  {
  }

  method ZonedWallTimeToUtc(zone: Zone, target: int) returns (utc: int, ghost checks: nat)
    ensures checks <= MAX_CHECKS
    ensures utc == Corrected(zone, target, MAX_CHECKS)
    ensures checks < MAX_CHECKS ==> Wall(zone, utc) == target && utc == Corrected(zone, target, checks)
    ensures forall n: nat :: n < checks ==> Wall(zone, Corrected(zone, target, n)) != target
  {
    utc := target;
    var i := 0;
    while i < MAX_CHECKS
      invariant 0 <= i <= MAX_CHECKS
      invariant utc == Corrected(zone, target, i)
      invariant forall n: nat :: n < i ==> Wall(zone, Corrected(zone, target, n)) != target
    {
      var diff := target - Wall(zone, utc);
      if diff == 0 {
        Settled(zone, target, i, MAX_CHECKS);
        return utc, i;
      }
      utc := utc + diff;
      i := i + 1;
    }
    checks := i;
  }

  /** Main result: with one transition in range, the third check at the latest succeeds, and the instant returned
      shows the wall time, exactly when any instant does. */
  lemma ThirdCheckSucceeds(zone: Zone, target: int, lo: int, hi: int, at: int, a: int, b: int)
    requires OneTransition(zone, lo, hi, at, a, b) && InRange(target, lo, hi, a, b)
    ensures Wall(zone, Corrected(zone, target, MAX_CHECKS)) == target <==> Shown(zone, target, lo, hi)
    ensures Shown(zone, target, lo, hi) ==> exists n: nat :: n < 3 && Wall(zone, Corrected(zone, target, n)) == target
    ensures lo <= Corrected(zone, target, MAX_CHECKS) <= hi
  {
    var u1 := Corrected(zone, target, 1);
    var u2 := Corrected(zone, target, 2);
    var u3 := Corrected(zone, target, 3);
    assert Corrected(zone, target, 0) == target;
    assert u1 == target - zone(target) && u2 == target - zone(u1) && u3 == target - zone(u2);
    assert Corrected(zone, target, 4) == target - zone(u3);
    if Shown(zone, target, lo, hi) {
      var n := if zone(target) == 0 then 0 else if zone(u1) == zone(target) then 1 else 2;
      assert Wall(zone, Corrected(zone, target, n)) == target;
      Settled(zone, target, n, MAX_CHECKS);
    }
  }

  /** Which of the two offsets the correction settles on: the one in force at the target read as an instant,
      unless that one leads across the transition. */
  lemma ChosenOffset(zone: Zone, target: int, lo: int, hi: int, at: int, a: int, b: int)
    requires OneTransition(zone, lo, hi, at, a, b) && InRange(target, lo, hi, a, b) && Shown(zone, target, lo, hi)
    ensures Corrected(zone, target, MAX_CHECKS)
            == target - (if target < at then (if target - a < at then a else b)
                         else if target - b >= at then b else a)
  {
    ThirdCheckSucceeds(zone, target, lo, hi, at, a, b);
    var u1 := Corrected(zone, target, 1);
    var u2 := Corrected(zone, target, 2);
    assert Corrected(zone, target, 0) == target;
    assert u1 == target - zone(target) && u2 == target - zone(u1) && Corrected(zone, target, 3) == target - zone(u2);
    assert Corrected(zone, target, 4) == target - zone(Corrected(zone, target, 3));
  }

  /** The transition skips the wall time. */
  predicate InGap(target: int, at: int, a: int, b: int) {
    at + a <= target < at + b
  }

  /** In the gap no instant shows the wall time, and the four corrections end on one side of it: the side is chosen by
      the target read as an instant. */
  lemma GapOffset(zone: Zone, target: int, lo: int, hi: int, at: int, a: int, b: int)
    requires OneTransition(zone, lo, hi, at, a, b) && InRange(target, lo, hi, a, b)
    ensures Shown(zone, target, lo, hi) <==> !InGap(target, at, a, b)
    ensures InGap(target, at, a, b) ==>
              Corrected(zone, target, MAX_CHECKS) == if target < at then target - b else target - a
  {
    var u1 := Corrected(zone, target, 1);
    var u2 := Corrected(zone, target, 2);
    assert Corrected(zone, target, 0) == target;
    assert u1 == target - zone(target) && u2 == target - zone(u1) && Corrected(zone, target, 3) == target - zone(u2);
    assert Corrected(zone, target, 4) == target - zone(Corrected(zone, target, 3));
    if !InGap(target, at, a, b) {
      var u := if target - a < at then target - a else target - b;
      assert lo <= u <= hi && Wall(zone, u) == target;
    }
  }

  /** A skip at least as long as the time between them, with one of the two in the gap and on the far side of it. */
  predicate TornApart(start: int, end: int, at: int, a: int, b: int) {
    && b - a >= end - start
    && ((InGap(start, at, a, b) && at <= start && !InGap(end, at, a, b))
        || (InGap(end, at, a, b) && end < at && !InGap(start, at, a, b)))
  }

  /** Exactly when the order of two wall times is kept, whether or not they are shown. */
  lemma OrderExact(zone: Zone, start: int, end: int, lo: int, hi: int, at: int, a: int, b: int)
    requires OneTransition(zone, lo, hi, at, a, b) && start < end
    requires InRange(start, lo, hi, a, b) && InRange(end, lo, hi, a, b)
    ensures Corrected(zone, start, MAX_CHECKS) < Corrected(zone, end, MAX_CHECKS) <==> !TornApart(start, end, at, a, b)
  {
    GapOffset(zone, start, lo, hi, at, a, b);
    GapOffset(zone, end, lo, hi, at, a, b);
    if Shown(zone, start, lo, hi) { ChosenOffset(zone, start, lo, hi, at, a, b); }
    if Shown(zone, end, lo, hi) { ChosenOffset(zone, end, lo, hi, at, a, b); }
  }

  const DAY_SPAN := ((23 * 60 + 59) * 60 + 59) * 1000

  /** Main result: the first second of a day maps before its last, a midnight in the skipped hour included, unless the
      clock skips a whole day and tears the two apart. */
  lemma DayStartBeforeEnd(zone: Zone, start: int, lo: int, hi: int, at: int, a: int, b: int)
    requires OneTransition(zone, lo, hi, at, a, b)
    requires InRange(start, lo, hi, a, b) && InRange(start + DAY_SPAN, lo, hi, a, b)
    ensures b - a < DAY_SPAN ==> Corrected(zone, start, MAX_CHECKS) < Corrected(zone, start + DAY_SPAN, MAX_CHECKS)
    ensures Corrected(zone, start, MAX_CHECKS) < Corrected(zone, start + DAY_SPAN, MAX_CHECKS)
            <==> !TornApart(start, start + DAY_SPAN, at, a, b)
  {
    OrderExact(zone, start, start + DAY_SPAN, lo, hi, at, a, b);
  }
}
