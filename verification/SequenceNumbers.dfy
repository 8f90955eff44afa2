/**
  Wrap-around comparison of RTP sequence numbers and timestamps, and the unwrapper that turns
  16-bit sequence numbers back into an ever growing count.
 */
module SequenceNumbers {

  newtype uint16 = x: int | 0 <= x < 0x1_0000
  newtype uint32 = x: int | 0 <= x < 0x1_0000_0000

  // ---------------------------------------------------------------- newer and latest

  /** How far a lies ahead of b, going up and round. */
  function Ahead(a: int, b: int, half: int): int {
    if a >= b then a - b else a - b + 2 * half
  }

  /** The comparison at either width: half is half the range of the numbers. */
  predicate Newer(a: int, b: int, half: int) {
    var distance := Ahead(a, b, half);
    if distance == half then a > b else a != b && distance < half
  }

  predicate IsNewerSequenceNumber(a: uint16, b: uint16) {
    var distance := (a as int - b as int) % 0x1_0000;
    if distance == 0x8000 then a > b else a != b && distance < 0x8000
  }

  predicate IsNewerTimestamp(a: uint32, b: uint32) {
    var distance := (a as int - b as int) % 0x1_0000_0000;
    if distance == 0x8000_0000 then a > b else a != b && distance < 0x8000_0000
  }

  function LatestSequenceNumber(a: uint16, b: uint16): uint16 {
    if IsNewerSequenceNumber(a, b) then a else b
  }

  function LatestTimestamp(a: uint32, b: uint32): uint32 {
    if IsNewerTimestamp(a, b) then a else b
  }

  /** Of two different numbers exactly one is newer, also when they lie half the range apart. */
  lemma NewerIsTotal(a: int, b: int, half: int)
    requires 0 < half && 0 <= a < 2 * half && 0 <= b < 2 * half
    ensures a != b ==> (Newer(a, b, half) <==> !Newer(b, a, half))
    ensures !Newer(a, a, half)
  {
  }

  lemma SequenceNumberIsNewer(a: uint16, b: uint16)
    ensures IsNewerSequenceNumber(a, b) <==> Newer(a as int, b as int, 0x8000)
  {
    var d := a as int - b as int;
    assert d % 0x1_0000 == if d >= 0 then d else d + 0x1_0000;
  }

  lemma TimestampIsNewer(a: uint32, b: uint32)
    ensures IsNewerTimestamp(a, b) <==> Newer(a as int, b as int, 0x8000_0000)
  {
    var d := a as int - b as int;
    assert d % 0x1_0000_0000 == if d >= 0 then d else d + 0x1_0000_0000;
  }

  /** Hence the latest of two does not depend on their order. */
  lemma LatestIsCommutative(a: uint16, b: uint16, s: uint32, t: uint32)
    ensures LatestSequenceNumber(a, b) == LatestSequenceNumber(b, a)
    ensures LatestTimestamp(s, t) == LatestTimestamp(t, s)
  {
    SequenceNumberIsNewer(a, b);
    SequenceNumberIsNewer(b, a);
    NewerIsTotal(a as int, b as int, 0x8000);
    TimestampIsNewer(s, t);
    TimestampIsNewer(t, s);
    NewerIsTotal(s as int, t as int, 0x8000_0000);
  }

  /** Newer is not transitive: three numbers can each be newer than the next, round in a circle. */
  lemma NewerHasCycles()
    ensures IsNewerSequenceNumber(0x6000, 0) && IsNewerSequenceNumber(0xC000, 0x6000)
    ensures IsNewerSequenceNumber(0, 0xC000)
  {
    SequenceNumberIsNewer(0x6000, 0);
    SequenceNumberIsNewer(0xC000, 0x6000);
    SequenceNumberIsNewer(0, 0xC000);
  }

  /** What is newer than a newer number is newer itself just as long as the way round stays within half the range. */
  lemma NewerIsTransitiveExactly(a: int, b: int, c: int, half: int)
    requires 0 < half && 0 <= a < 2 * half && 0 <= b < 2 * half && 0 <= c < 2 * half
    requires Newer(a, b, half) && Newer(b, c, half)
    ensures var way := Ahead(a, b, half) + Ahead(b, c, half);
      Newer(a, c, half) <==> way < half || (way == half && a > c)
  {
  }

  /** At both widths. */
  lemma NewerIsTransitive(a: uint16, b: uint16, c: uint16, s: uint32, t: uint32, u: uint32)
    ensures IsNewerSequenceNumber(a, b) && IsNewerSequenceNumber(b, c) ==>
      var way := Ahead(a as int, b as int, 0x8000) + Ahead(b as int, c as int, 0x8000);
      IsNewerSequenceNumber(a, c) <==> way < 0x8000 || (way == 0x8000 && a > c)
    ensures IsNewerTimestamp(s, t) && IsNewerTimestamp(t, u) ==>
      var way := Ahead(s as int, t as int, 0x8000_0000) + Ahead(t as int, u as int, 0x8000_0000);
      IsNewerTimestamp(s, u) <==> way < 0x8000_0000 || (way == 0x8000_0000 && s > u)
  {
    SequenceNumberIsNewer(a, b);
    SequenceNumberIsNewer(b, c);
    SequenceNumberIsNewer(a, c);
    TimestampIsNewer(s, t);
    TimestampIsNewer(t, u);
    TimestampIsNewer(s, u);
  }

  // ---------------------------------------------------------------- the latest of many

  function Cut16(x: nat): uint16 {
    (x % 0x1_0000) as uint16
  }

  function Cut32(x: nat): uint32 {
    (x % 0x1_0000_0000) as uint32
  }

  /** Between numbers less than half the range apart the comparison of residues is the true one. */
  lemma NewerOfResidues(x: nat, y: nat, half: int)
    requires 0 < half && -half < x - y < half
    ensures Newer(x % (2 * half), y % (2 * half), half) <==> x > y
  {
    var m := 2 * half;
    var q, r := y / m, y % m;
    assert y == q * m + r;
    var d := x - y;
    var s := r + d;
    assert x == q * m + s;
    var s' := if s < 0 then s + m else if s >= m then s - m else s;
    var q' := if s < 0 then q - 1 else if s >= m then q + 1 else q;
    assert x == q' * m + s' by {
      assert (q - 1) * m == q * m - m && (q + 1) * m == q * m + m;
    }
    ResidueIs(x, q', s', m);
  }

  lemma ResidueIs(x: int, q: int, r: int, m: int)
    requires 0 <= r < m && x == q * m + r
    ensures x % m == r
  {
    var k := x / m - q;
    assert x == (x / m) * m + x % m;
    assert k * m == (x / m) * m - q * m == r - x % m;
    MultipleIsFar(k, m);
  }

  lemma MultipleIsFar(k: int, m: int)
    requires 0 < m
    ensures k >= 1 ==> k * m >= m
    ensures k <= -1 ==> k * m <= -m
  {
  }

  ghost predicate IsMaximum(m: nat, xs: seq<nat>) {
    (exists i :: 0 <= i < |xs| && xs[i] == m) && forall i :: 0 <= i < |xs| ==> xs[i] <= m
  }

  /** Any two of the numbers lie less than half the range apart. */
  ghost predicate Spans(xs: seq<nat>, half: int) {
    forall i, j :: 0 <= i < |xs| && 0 <= j < |xs| ==> xs[i] - xs[j] < half
  }

  function FoldLatest16(first: uint16, xs: seq<nat>): uint16
    decreases |xs|
  {
    if xs == [] then first else FoldLatest16(LatestSequenceNumber(first, Cut16(xs[0])), xs[1..])
  }

  function FoldLatest32(first: uint32, xs: seq<nat>): uint32
    decreases |xs|
  {
    if xs == [] then first else FoldLatest32(LatestTimestamp(first, Cut32(xs[0])), xs[1..])
  }

  /** The maximum of a list is the maximum of the greater of its first two and the rest. */
  lemma MaximumStep(x: nat, xs: seq<nat>, m: nat, half: int)
    requires xs != [] && IsMaximum(m, [x] + xs) && Spans([x] + xs, half)
    ensures var y := if x > xs[0] then x else xs[0];
      IsMaximum(m, [y] + xs[1..]) && Spans([y] + xs[1..], half) && x - xs[0] < half && xs[0] - x < half
  {
    var all, y := [x] + xs, if x > xs[0] then x else xs[0];
    var rest := [y] + xs[1..];
    assert all[0] == x && all[1] == xs[0];
    assert forall i :: 1 <= i < |rest| ==> rest[i] == all[i + 1];
    assert y == all[0] || y == all[1];
    var k :| 0 <= k < |all| && all[k] == m;
    if k <= 1 {
      assert rest[0] == m;
    } else {
      assert rest[k - 1] == m;
    }
  }

  /**
    Folding Latest over the residues of numbers that span less than half the range gives the
    residue of their maximum, whatever the order of the numbers.
   */
  lemma {:induction false} LatestOfMany16(x: nat, xs: seq<nat>, m: nat)
    requires Spans([x] + xs, 0x8000) && IsMaximum(m, [x] + xs)
    ensures FoldLatest16(Cut16(x), xs) == Cut16(m)
    decreases |xs|
  {
    if xs == [] {
      assert [x] + xs == [x];
    } else {
      MaximumStep(x, xs, m, 0x8000);
      NewerOfResidues(x, xs[0], 0x8000);
      SequenceNumberIsNewer(Cut16(x), Cut16(xs[0]));
      LatestOfMany16(if x > xs[0] then x else xs[0], xs[1..], m);
    }
  }

  lemma {:induction false} LatestOfMany32(x: nat, xs: seq<nat>, m: nat)
    requires Spans([x] + xs, 0x8000_0000) && IsMaximum(m, [x] + xs)
    ensures FoldLatest32(Cut32(x), xs) == Cut32(m)
    decreases |xs|
  {
    if xs == [] {
      assert [x] + xs == [x];
    } else {
      MaximumStep(x, xs, m, 0x8000_0000);
      NewerOfResidues(x, xs[0], 0x8000_0000);
      TimestampIsNewer(Cut32(x), Cut32(xs[0]));
      LatestOfMany32(if x > xs[0] then x else xs[0], xs[1..], m);
    }
  }

  // ---------------------------------------------------------------- the unwrapper

  const NONE: int := -1

  /** The low 16 bits of a 64-bit number. */
  function Low16(x: int): uint16 {
    (x % 0x1_0000) as uint16
  }

  /** The number unwrapped next after last; NONE means that there is no last one. */
  function UnwrapFrom(last: int, number: uint16): int {
    if last == NONE then number as int
    else
      var cropped := Low16(last);
      var delta := number as int - cropped as int;
      if IsNewerSequenceNumber(number, cropped) then
        last + (if delta < 0 then delta + 0x1_0000 else delta)
      else if delta > 0 && last + delta - 0x1_0000 >= 0 then
        last + (delta - 0x1_0000)
      else
        last + delta
  }

  class SequenceNumberUnwrapper {
    var lastSeq: int

    constructor ()
      ensures lastSeq == NONE == -1
    {
      lastSeq := NONE;
    }

    function UnwrapWithoutUpdate(number: uint16): int
      reads this
    {
      UnwrapFrom(lastSeq, number)
    }

    method UpdateLast(lastSequence: int)
      modifies this
      ensures lastSeq == lastSequence
    {
      lastSeq := lastSequence;
    }

    method Unwrap(number: uint16) returns (unwrapped: int)
      modifies this
      ensures unwrapped == lastSeq == UnwrapFrom(old(lastSeq), number)
    {
      unwrapped := UnwrapWithoutUpdate(number);
      UpdateLast(unwrapped);
    }
  }

  /**
    What one result has to do with the one before: it is not negative and agrees with the input in its
    low bits; a newer number goes up and an older one down, by at most half the range, except that going
    back below 0 is refused. Then the last result was in the lower half of the first cycle and the
    number itself is the result.
   */
  predicate IsStep(last: int, number: uint16, r: int) {
    var newer := IsNewerSequenceNumber(number, Low16(last));
    r >= 0 && Low16(r) == number && (r == last <==> number == Low16(last)) &&
    (newer ==> last < r <= last + 0x8000) &&
    (!newer ==> last - 0x8000 <= r <= last || (last < 0x8000 && r == number as int && r > last + 0x8000))
  }

  lemma UnwrapStepFacts(last: nat, number: uint16)
    ensures IsStep(last, number, UnwrapFrom(last, number))
  {
    SequenceNumberIsNewer(number, Low16(last));
    var q := last / 0x1_0000;
    assert last == q * 0x1_0000 + Low16(last) as int;
    var r := UnwrapFrom(last, number);
    var d := r - number as int;
    var k := if d == q * 0x1_0000 then q else if d == (q + 1) * 0x1_0000 then q + 1 else q - 1;
    assert r == k * 0x1_0000 + number as int;
    ResidueIs(r, k, number as int, 0x1_0000);
  }

  /** The results for a stream, of which the unwrapper sees the low bits. */
  function UnwrapAll(last: int, xs: seq<nat>): (rs: seq<int>)
    ensures |rs| == |xs|
    decreases |xs|
  {
    if xs == [] then [] else
      var r := UnwrapFrom(last, Low16(xs[0]));
      [r] + UnwrapAll(r, xs[1..])
  }

  lemma {:induction false} ResultsFollow(last: nat, xs: seq<nat>, i: nat)
    requires i < |xs|
    ensures var rs := UnwrapAll(last, xs);
      IsStep(if i == 0 then last else rs[i - 1], Low16(xs[i]), rs[i])
    decreases |xs|
  {
    UnwrapStepFacts(last, Low16(xs[0]));
    if i > 0 {
      ResultsFollow(UnwrapFrom(last, Low16(xs[0])), xs[1..], i - 1);
    }
  }

  /** On any stream of numbers at all, fed to a new unwrapper, every result is such a step from the one before. */
  lemma StreamFacts(xs: seq<nat>, i: nat)
    requires i < |xs|
    ensures var rs := UnwrapAll(NONE, xs);
      if i == 0 then rs[0] == Low16(xs[0]) as int else IsStep(rs[i - 1], Low16(xs[i]), rs[i])
  {
    if i > 0 {
      ResultsFollow(Low16(xs[0]) as int, xs[1..], i - 1);
    }
  }

  /** The steps of a true count that the unwrapper follows. */
  predicate Follows(x: nat, y: nat) {
    (-0x8000 < y - x < 0x8000) ||
    (y - x == 0x8000 && x % 0x1_0000 < 0x8000) ||
    (x - y == 0x8000 && x % 0x1_0000 >= 0x8000) ||
    (y - x > 0x8000 && y < 0x1_0000)
  }

  /** One step is recovered exactly when the unwrapper follows it. */
  lemma StepIsRecoveredExactly(x: nat, y: nat)
    ensures UnwrapFrom(x, Low16(y)) == y <==> Follows(x, y)
  {
    SequenceNumberIsNewer(Low16(y), Low16(x));
    var p, q := x / 0x1_0000, y / 0x1_0000;
    assert x == p * 0x1_0000 + Low16(x) as int;
    assert y == q * 0x1_0000 + Low16(y) as int;
  }

  predicate FollowsAll(x: nat, xs: seq<nat>)
    decreases |xs|
  {
    xs == [] || (Follows(x, xs[0]) && FollowsAll(xs[0], xs[1..]))
  }

  lemma ConsEqual(r: int, rs: seq<int>, xs: seq<nat>)
    requires xs != []
    ensures [r] + rs == xs <==> r == xs[0] && rs == xs[1..]
  {
    assert ([r] + rs)[0] == r && ([r] + rs)[1..] == rs;
  }

  lemma {:induction false} RestIsRecoveredExactly(x: nat, xs: seq<nat>)
    ensures UnwrapAll(x, xs) == xs <==> FollowsAll(x, xs)
    decreases |xs|
  {
    if xs != [] {
      StepIsRecoveredExactly(x, xs[0]);
      var r := UnwrapFrom(x, Low16(xs[0]));
      ConsEqual(r, UnwrapAll(r, xs[1..]), xs);
      RestIsRecoveredExactly(xs[0], xs[1..]);
    }
  }

  /** A whole stream comes back exactly when it starts in the first cycle and every step is followed. */
  lemma StreamIsRecoveredExactly(xs: seq<nat>)
    requires xs != []
    ensures UnwrapAll(NONE, xs) == xs <==> xs[0] < 0x1_0000 && FollowsAll(xs[0], xs[1..])
  {
    var r := UnwrapFrom(NONE, Low16(xs[0]));
    assert r == xs[0] <==> xs[0] < 0x1_0000;
    ConsEqual(r, UnwrapAll(r, xs[1..]), xs);
    RestIsRecoveredExactly(xs[0], xs[1..]);
  }

  /** In particular any count whose steps are smaller than half the range, over any number of wraps. */
  lemma {:induction false} SmallStepsAreFollowed(xs: seq<nat>)
    requires xs != [] && forall i :: 0 <= i < |xs| - 1 ==> -0x8000 < xs[i + 1] - xs[i] < 0x8000
    ensures FollowsAll(xs[0], xs[1..])
    decreases |xs|
  {
    if |xs| > 1 {
      var rest := xs[1..];
      assert -0x8000 < xs[0 + 1] - xs[0] < 0x8000;
      forall i | 0 <= i < |rest| - 1 ensures -0x8000 < rest[i + 1] - rest[i] < 0x8000 {
        var k := i + 1;
        assert rest[i] == xs[k] && rest[i + 1] == xs[k + 1];
      }
      SmallStepsAreFollowed(rest);
    }
  }

  lemma StreamIsRecovered(xs: seq<nat>)
    requires xs != [] && xs[0] < 0x1_0000
    requires forall i :: 0 <= i < |xs| - 1 ==> -0x8000 < xs[i + 1] - xs[i] < 0x8000
    ensures UnwrapAll(NONE, xs) == xs
  {
    SmallStepsAreFollowed(xs);
    StreamIsRecoveredExactly(xs);
  }
}
