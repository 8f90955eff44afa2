/**
  BufferT: a block that grows by half when data is added. Contents follow a plain sequence, and the
  copying that growth costs is paid for by the capacity reached.
 */
module GrowableBuffers {

  const UINT32_MOD: nat := 0x1_0000_0000

  function Max(a: nat, b: nat): nat {
    if a < b then b else a
  }

  // ---------------------------------------------------------------- sizes and cost

  /** Size, capacity, and the number of elements that reallocation has copied so far. */
  datatype Sizes = Sizes(size: nat, capacity: nat, copied: nat)

  datatype Op = Append(n: nat) | Set(n: nat) | Resize(n: nat) | Clear | Reserve(n: nat)

  /** uint32 arithmetic: the headroom sum wraps around. */
  function NewCapacity(capacity: nat, want: nat, extraHeadroom: bool): nat {
    if extraHeadroom then Max(want, (capacity + capacity / 2) % UINT32_MOD) else want
  }

  function Ensure(s: Sizes, want: nat, extraHeadroom: bool): Sizes {
    if want <= s.capacity then s
    else s.(capacity := NewCapacity(s.capacity, want, extraHeadroom), copied := s.copied + s.size)
  }

  function Step(s: Sizes, op: Op): Sizes {
    match op
    case Append(n) => Ensure(s, s.size + n, true).(size := s.size + n)
    case Set(n) => Ensure(s.(size := 0), n, true).(size := n)
    case Resize(n) => Ensure(s, n, true).(size := n)
    case Clear => s.(size := 0)
    case Reserve(n) => Ensure(s, n, false)
  }

  function Run(s: Sizes, ops: seq<Op>): Sizes
    decreases |ops|
  {
    if ops == [] then s else Run(Step(s, ops[0]), ops[1..])
  }

  /** The capacity an operation asks for. */
  function Want(s: Sizes, op: Op): nat {
    match op
    case Append(n) => s.size + n
    case Set(n) => n
    case Resize(n) => n
    case Clear => 0
    case Reserve(n) => n
  }

  /** The greatest capacity to which half can be added within 32 bits. */
  const MAX_HEADROOM_CAPACITY: nat := 0xAAAA_AAAA

  /** Capacity is never reserved by hand, and the headroom sum fits 32 bits whenever the block is replaced. */
  predicate Ordinary(s: Sizes, ops: seq<Op>)
    decreases |ops|
  {
    ops == [] ||
    (!ops[0].Reserve? && (Want(s, ops[0]) > s.capacity ==> s.capacity <= MAX_HEADROOM_CAPACITY) &&
     Ordinary(Step(s, ops[0]), ops[1..]))
  }

  predicate NeverReserves(ops: seq<Op>) {
    forall i :: 0 <= i < |ops| ==> !ops[i].Reserve?
  }

  function Peak(s: Sizes, ops: seq<Op>): nat
    decreases |ops|
  {
    if ops == [] then s.size else Max(s.size, Peak(Step(s, ops[0]), ops[1..]))
  }

  /**
    What each operation does to size, capacity and cost. When the block is replaced, it grows by half
    or to what is wanted, whichever is more, and what it holds is copied; reserving leaves out the half,
    and setting copies nothing.
   */
  lemma StepsExactly(s: Sizes, n: nat)
    requires s.capacity <= 0xAAAA_AAAA
    ensures Step(s, Append(n)) ==
      if s.size + n <= s.capacity then Sizes(s.size + n, s.capacity, s.copied)
      else Sizes(s.size + n, if s.size + n >= s.capacity + s.capacity / 2 then s.size + n
                             else s.capacity + s.capacity / 2, s.copied + s.size)
    ensures Step(s, Resize(n)) ==
      if n <= s.capacity then Sizes(n, s.capacity, s.copied)
      else Sizes(n, if n >= s.capacity + s.capacity / 2 then n else s.capacity + s.capacity / 2, s.copied + s.size)
    ensures Step(s, Set(n)).size == n && Step(s, Set(n)).copied == s.copied
    ensures Step(s, Set(n)).capacity == Step(s, Resize(n)).capacity
    ensures Step(s, Clear) == Sizes(0, s.capacity, s.copied)
    ensures Step(s, Reserve(n)) ==
      if n <= s.capacity then s else Sizes(s.size, n, s.copied + s.size)
  {
    assert (s.capacity + s.capacity / 2) % 0x1_0000_0000 == s.capacity + s.capacity / 2;
  }

  predicate PaidFor(s: Sizes) {
    s.size <= s.capacity && s.copied <= 3 * s.capacity
  }

  lemma EnsureIsPaidFor(s: Sizes, want: nat)
    requires PaidFor(s) && (want > s.capacity ==> s.capacity <= MAX_HEADROOM_CAPACITY)
    ensures var r := Ensure(s, want, true); PaidFor(r) && r.size == s.size && want <= r.capacity
  {
    var c := s.capacity;
    if want > c {
      assert (c + c / 2) % UINT32_MOD == c + c / 2;
    }
  }

  lemma StepIsPaidFor(s: Sizes, op: Op)
    requires PaidFor(s) && !op.Reserve? && (Want(s, op) > s.capacity ==> s.capacity <= MAX_HEADROOM_CAPACITY)
    ensures PaidFor(Step(s, op))
  {
    match op
    case Append(n) => EnsureIsPaidFor(s, s.size + n);
    case Set(n) => EnsureIsPaidFor(s.(size := 0), n);
    case Resize(n) => EnsureIsPaidFor(s, n);
    case Clear =>
  }

  /** Amortised growth: over any ordinary run at most three elements are copied per unit of capacity. */
  lemma {:induction false} GrowthIsPaidFor(s: Sizes, ops: seq<Op>)
    requires PaidFor(s) && Ordinary(s, ops)
    ensures PaidFor(Run(s, ops))
    decreases |ops|
  {
    if ops != [] {
      StepIsPaidFor(s, ops[0]);
      GrowthIsPaidFor(Step(s, ops[0]), ops[1..]);
    }
  }

  lemma CapacityStep(s: Sizes, op: Op)
    requires !op.Reserve?
    ensures 2 * Step(s, op).capacity <= Max(2 * s.capacity, 3 * Step(s, op).size)
  {
    assert (s.capacity + s.capacity / 2) % UINT32_MOD <= s.capacity + s.capacity / 2;
  }

  /** Unless it is reserved, capacity stays within one and a half times the greatest size, wrap-around included. */
  lemma {:induction false} CapacityFollowsPeak(s: Sizes, ops: seq<Op>, peak: nat)
    requires NeverReserves(ops) && 2 * s.capacity <= 3 * peak && Peak(s, ops) <= peak
    ensures 2 * Run(s, ops).capacity <= 3 * peak
    decreases |ops|
  {
    if ops != [] {
      var s' := Step(s, ops[0]);
      CapacityStep(s, ops[0]);
      assert s'.size <= Peak(s', ops[1..]);
      assert forall i :: 0 <= i < |ops[1..]| ==> ops[1..][i] == ops[i + 1];
      CapacityFollowsPeak(s', ops[1..], peak);
    }
  }

  lemma {:induction false} OrdinaryNeverReserves(s: Sizes, ops: seq<Op>)
    requires Ordinary(s, ops)
    ensures NeverReserves(ops)
    decreases |ops|
  {
    if ops != [] {
      OrdinaryNeverReserves(Step(s, ops[0]), ops[1..]);
      assert forall i :: 1 <= i < |ops| ==> ops[i] == ops[1..][i - 1];
    }
  }

  lemma CopyingIsLinear(ops: seq<Op>)
    requires Ordinary(Sizes(0, 0, 0), ops)
    ensures 2 * Run(Sizes(0, 0, 0), ops).copied <= 9 * Peak(Sizes(0, 0, 0), ops)
  {
    OrdinaryNeverReserves(Sizes(0, 0, 0), ops);
    GrowthIsPaidFor(Sizes(0, 0, 0), ops);
    CapacityFollowsPeak(Sizes(0, 0, 0), ops, Peak(Sizes(0, 0, 0), ops));
  }

  // ---------------------------------------------------------------- when the headroom sum wraps around

  /** Every size and every capacity along the run fits 32 bits. */
  predicate Fits(s: Sizes, ops: seq<Op>)
    decreases |ops|
  {
    s.size < UINT32_MOD && s.capacity < UINT32_MOD && (ops == [] || Fits(Step(s, ops[0]), ops[1..]))
  }

  /** The sum of the numbers below n. */
  function Triangle(n: nat): nat {
    if n == 0 then 0 else Triangle(n - 1) + (n - 1)
  }

  function AppendOnes(k: nat): seq<Op> {
    if k == 0 then [] else [Append(1)] + AppendOnes(k - 1)
  }

  /** From a full block above the threshold every single element appended replaces the block. */
  lemma {:induction false} WrappedCost(n: nat, copied: nat, k: nat)
    requires MAX_HEADROOM_CAPACITY < n && n + k < UINT32_MOD
    ensures var s := Sizes(n, n, copied);
      var r := Run(s, AppendOnes(k));
      Fits(s, AppendOnes(k)) && r.size == r.capacity == n + k && r.copied + Triangle(n) == copied + Triangle(n + k)
    decreases k
  {
    if k > 0 {
      var s, ops := Sizes(n, n, copied), AppendOnes(k);
      assert ops[0] == Append(1) && ops[1..] == AppendOnes(k - 1);
      assert (n + n / 2) % UINT32_MOD == n + n / 2 - UINT32_MOD;
      assert Step(s, ops[0]) == Sizes(n + 1, n + 1, copied + n);
      WrappedCost(n + 1, copied + n, k - 1);
      assert Triangle(n + 1) == Triangle(n) + n;
    }
  }

  lemma {:induction false} RoomIsFree(s: Sizes, k: nat)
    requires s.size + k <= s.capacity < UINT32_MOD
    ensures Ordinary(s, AppendOnes(k)) && Fits(s, AppendOnes(k))
    decreases k
  {
    if k > 0 {
      var ops := AppendOnes(k);
      assert ops[0] == Append(1) && ops[1..] == AppendOnes(k - 1);
      RoomIsFree(Step(s, ops[0]), k - 1);
    }
  }

  lemma Triangles(n: nat)
    ensures Triangle(n + 5) == Triangle(n) + 5 * n + 10
  {
    assert Triangle(n + 5) == Triangle(n + 4) + n + 4 && Triangle(n + 4) == Triangle(n + 3) + n + 3;
    assert Triangle(n + 3) == Triangle(n + 2) + n + 2 && Triangle(n + 2) == Triangle(n + 1) + n + 1;
  }

  /** A block of n elements, filled at once, and five elements appended one by one. */
  function FillThenAppend(n: nat): seq<Op> {
    [Resize(n)] + AppendOnes(5)
  }

  lemma {:induction false} SmallIsOrdinary(s: Sizes, k: nat)
    requires s.size + k <= 20 && s.capacity <= 30
    ensures Ordinary(s, AppendOnes(k)) && Fits(s, AppendOnes(k))
    decreases k
  {
    if k > 0 {
      var ops := AppendOnes(k);
      assert ops[0] == Append(1) && ops[1..] == AppendOnes(k - 1);
      SmallIsOrdinary(Step(s, ops[0]), k - 1);
    }
  }

  lemma FirstAppend(n: nat)
    requires n < UINT32_MOD
    ensures Ordinary(Sizes(n, n, 0), AppendOnes(5)) <==> n <= MAX_HEADROOM_CAPACITY
    ensures n <= MAX_HEADROOM_CAPACITY ==> Fits(Sizes(n, n, 0), AppendOnes(5))
  {
    var ops := AppendOnes(5);
    assert ops[0] == Append(1) && ops[1..] == AppendOnes(4);
    if n < 10 {
      SmallIsOrdinary(Sizes(n, n, 0), 5);
    } else if n <= MAX_HEADROOM_CAPACITY {
      assert (n + n / 2) % UINT32_MOD == n + n / 2;
      RoomIsFree(Step(Sizes(n, n, 0), Append(1)), 4);
    }
  }

  lemma {:induction false} NoReserveInOnes(k: nat)
    ensures NeverReserves(AppendOnes(k))
  {
    if k > 0 {
      NoReserveInOnes(k - 1);
    }
  }

  lemma FillFirst(n: nat)
    ensures var ops := FillThenAppend(n);
      ops[0] == Resize(n) && ops[1..] == AppendOnes(5) && Step(Sizes(0, 0, 0), Resize(n)) == Sizes(n, n, 0)
  {
  }

  lemma AboveThreshold(n: nat)
    requires MAX_HEADROOM_CAPACITY < n && n + 5 < UINT32_MOD
    ensures !PaidFor(Run(Sizes(0, 0, 0), FillThenAppend(n)))
  {
    FillFirst(n);
    WrappedCost(n, 0, 5);
    Triangles(n);
  }

  lemma FitsWhenFilled(n: nat)
    requires n + 5 < UINT32_MOD
    ensures Fits(Sizes(n, n, 0), AppendOnes(5))
  {
    if MAX_HEADROOM_CAPACITY < n {
      WrappedCost(n, 0, 5);
    } else {
      FirstAppend(n);
    }
  }

  /**
    The premise on the headroom sum is the right one: filling a block and then appending single elements,
    all within 32 bits, costs more than three elements per unit of capacity exactly above the threshold.
   */
  lemma HeadroomThreshold(n: nat)
    requires n + 5 < UINT32_MOD
    ensures NeverReserves(FillThenAppend(n)) && Fits(Sizes(0, 0, 0), FillThenAppend(n))
    ensures PaidFor(Run(Sizes(0, 0, 0), FillThenAppend(n))) <==> n <= MAX_HEADROOM_CAPACITY
    ensures Ordinary(Sizes(0, 0, 0), FillThenAppend(n)) <==> n <= MAX_HEADROOM_CAPACITY
  {
    FillFirst(n);
    FirstAppend(n);
    NoReserveInOnes(5);
    FitsWhenFilled(n);
    if MAX_HEADROOM_CAPACITY < n {
      AboveThreshold(n);
    } else {
      GrowthIsPaidFor(Sizes(0, 0, 0), FillThenAppend(n));
    }
  }

  // ---------------------------------------------------------------- reserving by hand

  predicate ReserveBound(s: Sizes) {
    s.size <= s.capacity && s.copied <= Triangle(s.capacity)
  }

  lemma {:induction false} TriangleGrows(c: nat, d: nat)
    requires c < d
    ensures Triangle(c) + c <= Triangle(d)
  {
    if c < d - 1 {
      TriangleGrows(c, d - 1);
    }
  }

  lemma {:induction false} TriangleIs(n: nat)
    ensures 2 * Triangle(n) == n * (n - 1)
  {
    if n > 0 {
      TriangleIs(n - 1);
      assert (n - 1) * (n - 2) + 2 * (n - 1) == n * (n - 1);
    }
  }

  lemma MulIsMonotone(c: nat, a: int, b: int)
    ensures a <= b ==> c * a <= c * b
    ensures a < b && c > 0 ==> c * a < c * b
  {
    assert c * b - c * a == c * (b - a);
  }

  lemma TriangleExceeds(n: nat, factor: nat)
    ensures Triangle(n) > factor * n <==> n - 1 > 2 * factor
  {
    TriangleIs(n);
    MulIsMonotone(n, n - 1, 2 * factor);
    MulIsMonotone(n, 2 * factor, n - 1);
    assert n * (2 * factor) == 2 * (factor * n);
  }

  lemma EnsureKeepsReserveBound(s: Sizes, want: nat, extraHeadroom: bool)
    requires ReserveBound(s)
    ensures ReserveBound(Ensure(s, want, extraHeadroom)) && want <= Ensure(s, want, extraHeadroom).capacity
  {
    if want > s.capacity {
      TriangleGrows(s.capacity, Ensure(s, want, extraHeadroom).capacity);
    }
  }

  /** With or without reserving, a block is only replaced by a larger one, so copying is quadratic at most. */
  lemma {:induction false} CopyingIsQuadratic(s: Sizes, ops: seq<Op>)
    requires ReserveBound(s)
    ensures ReserveBound(Run(s, ops))
    decreases |ops|
  {
    if ops != [] {
      match ops[0] {
        case Append(n) => EnsureKeepsReserveBound(s, s.size + n, true);
        case Set(n) => EnsureKeepsReserveBound(s.(size := 0), n, true);
        case Resize(n) => EnsureKeepsReserveBound(s, n, true);
        case Clear =>
        case Reserve(n) => EnsureKeepsReserveBound(s, n, false);
      }
      CopyingIsQuadratic(Step(s, ops[0]), ops[1..]);
    }
  }

  /** Reserving one element more, then filling it, k times over. */
  function Staircase(from: nat, k: nat): seq<Op>
    decreases k
  {
    if k == 0 then [] else [Reserve(from + 1), Resize(from + 1)] + Staircase(from + 1, k - 1)
  }

  lemma StaircaseStep(from: nat, k: nat)
    requires 0 < k
    ensures var s, ops := Sizes(from, from, Triangle(from)), Staircase(from, k);
      var s', rest := Sizes(from + 1, from + 1, Triangle(from + 1)), Staircase(from + 1, k - 1);
      Run(s, ops) == Run(s', rest) && (from + 1 < UINT32_MOD && Fits(s', rest) ==> Fits(s, ops))
  {
    var s, ops := Sizes(from, from, Triangle(from)), Staircase(from, k);
    var rest := Staircase(from + 1, k - 1);
    assert ops[0] == Reserve(from + 1) && ops[1..][0] == Resize(from + 1) && ops[1..][1..] == rest;
    var s1 := Sizes(from, from + 1, Triangle(from + 1));
    assert Step(s, ops[0]) == s1 && Step(s1, ops[1..][0]) == s1.(size := from + 1);
  }

  lemma {:induction false} StaircaseCost(from: nat, k: nat)
    requires from + k < UINT32_MOD
    ensures var s, top := Sizes(from, from, Triangle(from)), from + k;
      Fits(s, Staircase(from, k)) && Run(s, Staircase(from, k)) == Sizes(top, top, Triangle(top))
    decreases k
  {
    if k > 0 {
      StaircaseStep(from, k);
      StaircaseCost(from + 1, k - 1);
    }
  }

  lemma {:induction false} FitsAtEnd(s: Sizes, ops: seq<Op>)
    requires Fits(s, ops)
    ensures Run(s, ops).capacity < UINT32_MOD
    decreases |ops|
  {
    if ops != [] {
      FitsAtEnd(Step(s, ops[0]), ops[1..]);
    }
  }

  /**
    Reserving step by step voids the bound: up to the greatest factor that 32 bits have room for, some
    run copies more than the factor allows, and beyond it none does.
   */
  lemma ReservingIsNotPaidFor(factor: nat)
    ensures (exists ops :: Fits(Sizes(0, 0, 0), ops) &&
              Run(Sizes(0, 0, 0), ops).copied > factor * Run(Sizes(0, 0, 0), ops).capacity)
       <==> factor < 0x7FFF_FFFF
  {
    var s := Sizes(0, 0, 0);
    if factor < 0x7FFF_FFFF {
      var n := 2 * factor + 2;
      StaircaseCost(0, n);
      TriangleExceeds(n, factor);
      assert Fits(s, Staircase(0, n)) && Run(s, Staircase(0, n)).copied > factor * Run(s, Staircase(0, n)).capacity;
    } else {
      forall ops | Fits(s, ops) ensures Run(s, ops).copied <= factor * Run(s, ops).capacity {
        CopyingIsQuadratic(s, ops);
        FitsAtEnd(s, ops);
        TriangleExceeds(Run(s, ops).capacity, factor);
      }
    }
  }

  // ---------------------------------------------------------------- the class

  class BufferT<T(0, ==)> {
    var size: nat
    var capacity: nat
    var data: array?<T>
    ghost var copied: nat

    /** IsConsistent, and the block is as large as the capacity says. */
    ghost predicate Valid()
      reads this
    {
      size <= capacity < UINT32_MOD &&
      (data == null ==> capacity == 0) && (data != null ==> capacity <= data.Length)
    }

    ghost function Contents(): (s: seq<T>)
      reads this, data
      requires Valid()
      ensures |s| == size
    {
      if data == null then [] else data[..size]
    }

    ghost function AsSizes(): Sizes
      reads this
    {
      Sizes(size, capacity, copied)
    }

    constructor ()
      ensures Valid() && Contents() == [] && AsSizes() == Sizes(0, 0, 0) && data == null
    {
      size, capacity, data, copied := 0, 0, null, 0;
    }

    constructor FromData(source: array<T>, n: nat, room: nat)
      requires n <= source.Length && n < UINT32_MOD && room < UINT32_MOD
      ensures Valid() && (data != null ==> fresh(data)) && (data == null <==> capacity == 0)
      ensures Contents() == source[..n] && AsSizes() == Sizes(n, Max(n, room), 0)
    {
      size, capacity, data, copied := n, Max(n, room), null, 0;
      new;
      if capacity > 0 {
        var block := new T[capacity];
        forall i | 0 <= i < n {
          block[i] := source[i];
        }
        data := block;
      }
    }

    /** The move constructor: takes the block and leaves the other buffer empty. */
    constructor MovedFrom(other: BufferT<T>)
      requires other.Valid()
      modifies other
      ensures Valid() && Contents() == old(other.Contents()) && data == old(other.data)
      ensures AsSizes() == old(other.AsSizes())
      ensures other.Valid() && other.Contents() == [] && other.AsSizes() == Sizes(0, 0, 0)
    {
      size, capacity, data, copied := other.size, other.capacity, other.data, other.copied;
      new;
      other.data := null;
      other.OnMovedFrom();
    }

    method OnMovedFrom()
      modifies this`size, this`capacity, this`copied
      ensures AsSizes() == Sizes(0, 0, 0)
    {
      size := 0;
      capacity := 0;
      copied := 0;
    }

    /** Move assignment. Assigning a buffer to itself empties it. */
    method MoveAssign(other: BufferT<T>)
      requires Valid() && other.Valid()
      modifies this, other
      ensures Valid() && other.Valid() && other.Contents() == []
      ensures other.AsSizes() == Sizes(0, 0, 0)
      ensures other != this ==>
        Contents() == old(other.Contents()) && data == old(other.data) && AsSizes() == old(other.AsSizes())
    {
      size := other.size;
      capacity := other.capacity;
      copied := other.copied;
      if other != this {
        data := other.data;
        other.data := null;
      }
      other.OnMovedFrom();
    }

    static method Swap(a: BufferT<T>, b: BufferT<T>)
      requires a.Valid() && b.Valid()
      modifies a, b
      ensures a.Valid() && a.Contents() == old(b.Contents())
      ensures b.Valid() && b.Contents() == old(a.Contents())
      ensures a.AsSizes() == old(b.AsSizes()) && b.AsSizes() == old(a.AsSizes())
    {
      a.copied, b.copied := b.copied, a.copied;
      a.size, b.size := b.size, a.size;
      a.capacity, b.capacity := b.capacity, a.capacity;
      a.data, b.data := b.data, a.data;
    }

    /** Makes room for want elements; the elements in use are copied when the block is replaced. */
    method EnsureCapacityWithHeadroom(want: nat, extraHeadroom: bool)
      requires Valid() && want < UINT32_MOD
      modifies this`capacity, this`data, this`copied
      ensures Valid() && want <= capacity && (data == old(data) || fresh(data))
      ensures Contents() == old(Contents()) && AsSizes() == Ensure(old(AsSizes()), want, extraHeadroom)
    {
      if want <= capacity {
        return;
      }
      var newCapacity := if extraHeadroom then Max(want, (capacity + capacity / 2) % UINT32_MOD) else want;
      var newData := new T[newCapacity];
      if data != null {
        forall i | 0 <= i < size {
          newData[i] := data[i];
        }
      }
      copied := copied + size;
      data := newData;
      capacity := newCapacity;
    }

    method EnsureCapacity(want: nat)
      requires Valid() && want < UINT32_MOD
      modifies this`capacity, this`data, this`copied
      ensures Valid() && want <= capacity && (data == old(data) || fresh(data))
      ensures Contents() == old(Contents()) && AsSizes() == Step(old(AsSizes()), Reserve(want))
    {
      EnsureCapacityWithHeadroom(want, false);
    }

    /** The source is not the buffer's own block, and the new size fits 32 bits. */
    method AppendData(source: array<T>, n: nat)
      requires Valid() && source != data && n <= source.Length && size + n < UINT32_MOD
      modifies this, data
      ensures Valid() && (data == old(data) || fresh(data))
      ensures Contents() == old(Contents()) + source[..n]
      ensures AsSizes() == Step(old(AsSizes()), Append(n))
    {
      var newSize := size + n;
      EnsureCapacityWithHeadroom(newSize, true);
      if data != null {
        forall i | 0 <= i < n {
          data[size + i] := source[i];
        }
      }
      size := newSize;
    }

    method SetData(source: array<T>, n: nat)
      requires Valid() && source != data && n <= source.Length && n < UINT32_MOD
      modifies this, data
      ensures Valid() && (data == old(data) || fresh(data))
      ensures Contents() == source[..n]
      ensures AsSizes() == Step(old(AsSizes()), Set(n))
    {
      size := 0;
      AppendData(source, n);
    }

    /** Keeps the elements below the new size; elements added hold whatever the block held. */
    method SetSize(n: nat)
      requires Valid() && n < UINT32_MOD
      modifies this
      ensures Valid() && (data == old(data) || fresh(data))
      ensures var k := if n < |old(Contents())| then n else |old(Contents())|;
        |Contents()| == n && Contents()[..k] == old(Contents())[..k]
      ensures AsSizes() == Step(old(AsSizes()), Resize(n))
    {
      ghost var was := Contents();
      EnsureCapacityWithHeadroom(n, true);
      assert data != null ==> data[..size] == was;
      size := n;
    }

    method Clear()
      requires Valid()
      modifies this`size
      ensures Valid() && Contents() == [] && AsSizes() == Step(old(AsSizes()), Op.Clear)
    {
      size := 0;
    }

    /** operator== */
    method Equals(other: BufferT<T>) returns (same: bool)
      requires Valid() && other.Valid()
      ensures same <==> Contents() == other.Contents()
    {
      if size != other.size {
        return false;
      }
      for i := 0 to size
        invariant forall k :: 0 <= k < i ==> Contents()[k] == other.Contents()[k]
      {
        if data[i] != other.data[i] {
          assert Contents()[i] != other.Contents()[i];
          return false;
        }
      }
      return true;
    }
  }
}
