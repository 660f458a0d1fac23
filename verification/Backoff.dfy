/** The two capped-doubling backoffs: the start-failure backoff of the admitter and
    the reconnect backoff of the router's delete watches. Both run on Go's 64-bit
    time.Duration, so every doubling is written with its wrap-around. */
module Backoff {
  import opened Api

  const TWO_63 := 0x8000_0000_0000_0000
  const TWO_62 := 0x4000_0000_0000_0000
  const BASE_BACKOFF := 5 * NANOS_PER_SECOND

  predicate IsInt64(x: int) { -TWO_63 <= x < TWO_63 }

  /** d * 2 in a 64-bit two's complement register. */
  function Double64(d: int): (r: int)
    requires IsInt64(d)
    ensures IsInt64(r)
    ensures IsInt64(2 * d) ==> r == 2 * d
  {
    if 2 * d >= TWO_63 then 2 * d - 2 * TWO_63
    else if 2 * d < -TWO_63 then 2 * d + 2 * TWO_63
    else 2 * d
  }

  function Pow2(n: nat): (p: int)
    ensures p >= 1
  {
    if n == 0 then 1 else 2 * Pow2(n - 1)
  }

  lemma {:induction false} Pow2Monotone(m: nat, n: nat)
    requires m <= n
    ensures Pow2(m) <= Pow2(n)
  {
    if m < n {
      Pow2Monotone(m, n - 1);
    }
  }

  /** base doubled j times, but never more than cap. */
  function CappedDoubling(base: int, j: nat, cap: int): int {
    Min(base * Pow2(j), cap)
  }

  /** The interval after the given number of consecutive start failures. */
  function StartBackoff(failures: int, backoffMax: int): int {
    CappedDoubling(BASE_BACKOFF, Max(failures, 1) - 1, backoffMax)
  }

  /** Go's division by two truncates toward zero. */
  function Half(x: int): int { if x >= 0 then x / 2 else -((-x) / 2) }

  /** The doubling loop computes capped doubling for every failure count and every
      64-bit cap, and no doubling in it overflows. */
  method BackoffDuration(failures: int, backoffMax: int) returns (d: int)
    requires IsInt64(backoffMax)
    ensures d == StartBackoff(failures, backoffMax)
    ensures IsInt64(d)
  {
    var n := failures;
    if n < 1 {
      n := 1;
    }
    d := BASE_BACKOFF;
    var i := 1;
    while i < n
      invariant 1 <= i <= n
      invariant d == BASE_BACKOFF * Pow2(i - 1)
      invariant IsInt64(d)
    {
      if d > Half(backoffMax) {
        Pow2Monotone(i, n - 1);
        return backoffMax;
      }
      d := Double64(d);
      i := i + 1;
    }
    if d > backoffMax {
      return backoffMax;
    }
  }

  /** One turn of a delete watch: the Watch call failed, or a session was drained
      until its channel closed after the given time. */
  datatype Session = WatchFailed | Drained(lasted: int)

  predicate Healthy(s: Session, minBackoff: int) {
    s.Drained? && s.lasted >= minBackoff
  }

  function NextBackoff(d: int, maxBackoff: int): (r: int)
    requires IsInt64(d) && IsInt64(maxBackoff)
    ensures IsInt64(r)
  {
    var doubled := Double64(d);
    if doubled > maxBackoff then maxBackoff else doubled
  }

  /** The backoff variable after j failures in a row. */
  function Ladder(minBackoff: int, maxBackoff: int, j: nat): (d: int)
    requires IsInt64(minBackoff) && IsInt64(maxBackoff)
    ensures IsInt64(d)
  {
    if j == 0 then minBackoff else NextBackoff(Ladder(minBackoff, maxBackoff, j - 1), maxBackoff)
  }

  /** How many of the last sessions in a row failed or were too short. */
  function Streak(past: seq<Session>, minBackoff: int): nat {
    if past == [] || Healthy(past[|past| - 1], minBackoff) then 0
    else 1 + Streak(past[..|past| - 1], minBackoff)
  }

  /** The wait after session i: the floor after a healthy one, otherwise what the
      failures since the last healthy session lead to. */
  function Wait(sessions: seq<Session>, i: nat, minBackoff: int, maxBackoff: int): int
    requires i < |sessions|
    requires IsInt64(minBackoff) && IsInt64(maxBackoff)
  {
    if Healthy(sessions[i], minBackoff) then minBackoff
    else Ladder(minBackoff, maxBackoff, Streak(sessions[..i], minBackoff))
  }

  /** The reconnect loop, driven by the outcomes of its sessions until the context
      ends it. */
  method WatchDeletes(sessions: seq<Session>, minBackoff: int, maxBackoff: int) returns (waits: seq<int>)
    requires IsInt64(minBackoff) && IsInt64(maxBackoff)
    ensures |waits| == |sessions|
    ensures forall i :: 0 <= i < |sessions| ==> waits[i] == Wait(sessions, i, minBackoff, maxBackoff)
  {
    waits := [];
    var backoff := minBackoff;
    var i := 0;
    while i < |sessions|
      invariant 0 <= i <= |sessions|
      invariant |waits| == i
      invariant backoff == Ladder(minBackoff, maxBackoff, Streak(sessions[..i], minBackoff))
      invariant forall k :: 0 <= k < i ==> waits[k] == Wait(sessions, k, minBackoff, maxBackoff)
    {
      assert sessions[..i + 1][..i] == sessions[..i];
      if sessions[i].WatchFailed? {
        waits := waits + [backoff];
        backoff := NextBackoff(backoff, maxBackoff);
      } else if sessions[i].lasted >= minBackoff {
        backoff := minBackoff;
        waits := waits + [backoff];
      } else {
        waits := waits + [backoff];
        backoff := NextBackoff(backoff, maxBackoff);
      }
      i := i + 1;
    }
  }

  lemma {:induction false} LadderIsCapped(minBackoff: int, maxBackoff: int, j: nat)
    requires 0 < minBackoff <= maxBackoff < TWO_62
    ensures Ladder(minBackoff, maxBackoff, j) == CappedDoubling(minBackoff, j, maxBackoff)
  {
    if j > 0 {
      LadderIsCapped(minBackoff, maxBackoff, j - 1);
      Grows(minBackoff, j - 1);
      var below := CappedDoubling(minBackoff, j - 1, maxBackoff);
      assert 0 < below <= maxBackoff;
      assert Double64(below) == 2 * below;
    }
  }

  /** The reconnect backoff refines capped doubling exactly when the cap is below
      2^62 ns: at or above it the doubling of a value of 2^62 wraps to a negative wait. */
  lemma LadderRefinesCappedDoubling(minBackoff: int, maxBackoff: int)
    requires 0 < minBackoff <= maxBackoff < TWO_63
    ensures (forall j: nat :: Ladder(minBackoff, maxBackoff, j) == CappedDoubling(minBackoff, j, maxBackoff))
       <==> maxBackoff < TWO_62
  {
    if maxBackoff < TWO_62 {
      forall j: nat ensures Ladder(minBackoff, maxBackoff, j) == CappedDoubling(minBackoff, j, maxBackoff) {
        LadderIsCapped(minBackoff, maxBackoff, j);
      }
    } else {
      WrapsPastTheCap(minBackoff, maxBackoff, maxBackoff);
    }
  }

  lemma {:induction false} Pow2Exceeds(n: nat)
    ensures Pow2(n) > n
  {
    if n > 0 {
      Pow2Exceeds(n - 1);
    }
  }

  lemma Grows(base: int, n: nat)
    requires base >= 1
    ensures base * Pow2(n) > n
    ensures base * Pow2(n + 1) == 2 * (base * Pow2(n))
  {
    Pow2Exceeds(n);
    var p := Pow2(n);
    assert Pow2(n + 1) == 2 * p;
    assert base * p >= p;
  }

  /** However small the floor, a cap of 2^62 or more is doubled past 2^63 in the end. */
  lemma WrapsPastTheCap(minBackoff: int, maxBackoff: int, n: nat)
    requires 0 < minBackoff <= maxBackoff < TWO_63
    requires TWO_62 <= maxBackoff && TWO_62 <= n
    ensures Ladder(minBackoff, maxBackoff, n) != CappedDoubling(minBackoff, n, maxBackoff)
         || Ladder(minBackoff, maxBackoff, n + 1) != CappedDoubling(minBackoff, n + 1, maxBackoff)
  {
    Grows(minBackoff, n);
    var d := CappedDoubling(minBackoff, n, maxBackoff);
    assert TWO_62 <= d < TWO_63;
    assert NextBackoff(d, maxBackoff) < 0;
    assert CappedDoubling(minBackoff, n + 1, maxBackoff) > 0;
  }

  /** The watch failed, or its session did not last as long as the floor. */
  predicate Short(s: Session, minBackoff: int) { s.WatchFailed? || s.lasted < minBackoff }

  lemma {:induction false} StreakIs(past: seq<Session>, minBackoff: int, j: nat)
    requires j <= |past| && forall k :: |past| - j <= k < |past| ==> Short(past[k], minBackoff)
    requires j < |past| ==> !Short(past[|past| - j - 1], minBackoff)
    ensures Streak(past, minBackoff) == j
  {
    if j > 0 {
      var front := past[..|past| - 1];
      assert forall k :: 0 <= k < |front| ==> front[k] == past[k];
      StreakIs(front, minBackoff, j - 1);
    }
  }

  /** After a session of the floor's length or more the wait is the floor; after one that
      is short, or a watch that fails, with j such ones right before it and no more, it is
      the floor doubled j times and capped. */
  lemma WaitsExactly(sessions: seq<Session>, i: nat, j: nat, minBackoff: int, maxBackoff: int)
    requires 0 < minBackoff <= maxBackoff < 0x4000_0000_0000_0000
    requires i < |sessions| && j <= i
    ensures !Short(sessions[i], minBackoff) ==> Wait(sessions, i, minBackoff, maxBackoff) == minBackoff
    ensures (forall k :: i - j <= k <= i ==> Short(sessions[k], minBackoff)) && (j < i ==> !Short(sessions[i - j - 1], minBackoff)) ==>
      Wait(sessions, i, minBackoff, maxBackoff) == Min(minBackoff * Pow2(j), maxBackoff)
  {
    if (forall k :: i - j <= k <= i ==> Short(sessions[k], minBackoff)) && (j < i ==> !Short(sessions[i - j - 1], minBackoff)) {
      var past := sessions[..i];
      assert forall k :: 0 <= k < i ==> past[k] == sessions[k];
      StreakIs(past, minBackoff, j);
      LadderIsCapped(minBackoff, maxBackoff, j);
    }
  }
}
