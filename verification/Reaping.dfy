/** The reaper's predicate: when a Workspace counts as idle, and the count of fresh
    connections it rests on. */
module Reaping {
  import opened Api

  const TWO_31 := 0x8000_0000
  const MAX_INT32 := TWO_31 - 1

  /** The value a 32-bit two's complement register holds for x. */
  function Wrap32(x: int): (r: int)
    ensures -TWO_31 <= r < TWO_31
    ensures -TWO_31 <= x < TWO_31 ==> r == x
  {
    (x + TWO_31) % (2 * TWO_31) - TWO_31
  }

  lemma WrapAdd(a: int, b: int)
    ensures Wrap32(Wrap32(a) + b) == Wrap32(a + b)
  {
    var x := a + TWO_31;
    assert Wrap32(a) + b + TWO_31 == x + b - 2 * TWO_31 * (x / (2 * TWO_31));
  }

  /** What one entry adds to the fresh count: nothing once its heartbeat is stale. */
  function Contribution(e: ConnectionEntry, now: int, threshold: int): int {
    if now - e.heartbeatAt < threshold then e.count else 0
  }

  /** The sum of the fresh counts, over the entries in any order. */
  ghost function FreshTotal(entries: map<string, ConnectionEntry>, now: int, threshold: int): int
    decreases |entries|
  {
    if entries == map[] then 0
    else
      var pod :| pod in entries;
      assert |entries - {pod}| < |entries| by { SmallerWithout(entries, pod); }
      Contribution(entries[pod], now, threshold) + FreshTotal(entries - {pod}, now, threshold)
  }

  lemma SmallerWithout(entries: map<string, ConnectionEntry>, pod: string)
    requires pod in entries
    ensures |entries - {pod}| == |entries| - 1
  {
    assert (entries - {pod}).Keys == entries.Keys - {pod};
    assert |entries.Keys| == |entries| && |(entries - {pod}).Keys| == |entries - {pod}|;
  }

  /** The total does not depend on the order the entries are taken in. */
  lemma {:induction false} FreshTotalTake(entries: map<string, ConnectionEntry>, now: int, threshold: int, pod: string)
    requires pod in entries
    ensures FreshTotal(entries, now, threshold)
         == Contribution(entries[pod], now, threshold) + FreshTotal(entries - {pod}, now, threshold)
    decreases |entries|
  {
    var first :| first in entries
      && FreshTotal(entries, now, threshold)
      == Contribution(entries[first], now, threshold) + FreshTotal(entries - {first}, now, threshold);
    if first != pod {
      SmallerWithout(entries, first);
      SmallerWithout(entries, pod);
      FreshTotalTake(entries - {first}, now, threshold, pod);
      FreshTotalTake(entries - {pod}, now, threshold, first);
      assert entries - {first} - {pod} == entries - {pod} - {first};
    }
  }

  ghost predicate NonNegative(entries: map<string, ConnectionEntry>) {
    forall pod :: pod in entries ==> entries[pod].count >= 0
  }

  lemma {:induction false} FreshTotalNonNegative(entries: map<string, ConnectionEntry>, now: int, threshold: int)
    requires NonNegative(entries)
    ensures FreshTotal(entries, now, threshold) >= 0
    decreases |entries|
  {
    if entries != map[] {
      var pod :| pod in entries;
      SmallerWithout(entries, pod);
      FreshTotalNonNegative(entries - {pod}, now, threshold);
      FreshTotalTake(entries, now, threshold, pod);
    }
  }

  /** When the total is zero, so is every fresh count. */
  lemma NothingFresh(entries: map<string, ConnectionEntry>, now: int, threshold: int, pod: string)
    requires NonNegative(entries) && FreshTotal(entries, now, threshold) == 0
    requires pod in entries && now - entries[pod].heartbeatAt < threshold
    ensures entries[pod].count == 0
  {
    FreshTotalTake(entries, now, threshold, pod);
    FreshTotalNonNegative(entries - {pod}, now, threshold);
  }

  /** The summing loop over the entries, in the 32-bit arithmetic it runs in. */
  method FreshConnectionCount(entries: map<string, ConnectionEntry>, heartbeatInterval: int, now: int) returns (total: int)
    ensures total == Wrap32(FreshTotal(entries, now, 2 * heartbeatInterval))
  {
    var threshold := 2 * heartbeatInterval;
    total := 0;
    var left := entries;
    ghost var done := 0;
    while left != map[]
      invariant total == Wrap32(done)
      invariant FreshTotal(entries, now, threshold) == done + FreshTotal(left, now, threshold)
      decreases |left|
    {
      var pod :| pod in left;
      FreshTotalTake(left, now, threshold, pod);
      SmallerWithout(left, pod);
      if now - left[pod].heartbeatAt < threshold {
        WrapAdd(done, left[pod].count);
        total := Wrap32(total + left[pod].count);
        done := done + left[pod].count;
      }
      left := left - {pod};
    }
  }

  ghost predicate IsReapable(st: Status, app: App, now: int) {
    && st.phase == Ready
    && !st.scaledDown
    && st.traffic.lastActivity.Some?
    && now - st.traffic.lastActivity.value > app.idleTimeout
    && Wrap32(FreshTotal(st.traffic.connections, now, 2 * app.heartbeatInterval)) == 0
  }

  /** The four-clause test, in the order the code makes it. */
  method CheckReapable(st: Status, app: App, now: int) returns (reapable: bool)
    ensures reapable <==> IsReapable(st, app, now)
  {
    if st.phase != Ready { return false; }
    if st.scaledDown { return false; }
    if st.traffic.lastActivity.None? { return false; }
    if now - st.traffic.lastActivity.value <= app.idleTimeout { return false; }
    var count := FreshConnectionCount(st.traffic.connections, app.heartbeatInterval, now);
    return count == 0;
  }

  /** No entry counts a connection with a heartbeat of the last two intervals. */
  ghost predicate NobodyThere(st: Status, heartbeatInterval: int, now: int) {
    forall pod :: pod in st.traffic.connections && now - st.traffic.connections[pod].heartbeatAt < 2 * heartbeatInterval ==>
      st.traffic.connections[pod].count == 0
  }

  /** Ready, with activity on record that is longer ago than the timeout. */
  predicate IdleFor(st: Status, timeout: int, now: int) {
    st.phase == Ready && st.traffic.lastActivity.Some? && st.traffic.lastActivity.value + timeout < now
  }

  lemma {:induction false} NoFreshIsZero(entries: map<string, ConnectionEntry>, now: int, threshold: int)
    requires forall pod :: pod in entries && now - entries[pod].heartbeatAt < threshold ==> entries[pod].count == 0
    ensures FreshTotal(entries, now, threshold) == 0
    decreases |entries|
  {
    if entries != map[] {
      var pod :| pod in entries;
      SmallerWithout(entries, pod);
      NoFreshIsZero(entries - {pod}, now, threshold);
      FreshTotalTake(entries, now, threshold, pod);
    }
  }

  /** What the test amounts to, as long as counts are not negative and their fresh sum is
      below 2^32: Ready, not scaled down, idle for longer than the timeout, and nobody
      there. It holds of every such workspace, whatever the sums. */
  lemma ReapableExactly(st: Status, app: App, now: int)
    ensures IsReapable(st, app, now) ==> IdleFor(st, app.idleTimeout, now) && !st.scaledDown
    ensures IdleFor(st, app.idleTimeout, now) && !st.scaledDown && NobodyThere(st, app.heartbeatInterval, now) ==> IsReapable(st, app, now)
    ensures NonNegative(st.traffic.connections) && FreshTotal(st.traffic.connections, now, 2 * app.heartbeatInterval) < 0x1_0000_0000 ==>
      (IsReapable(st, app, now) <==> IdleFor(st, app.idleTimeout, now) && !st.scaledDown && NobodyThere(st, app.heartbeatInterval, now))
  {
    var entries, threshold := st.traffic.connections, 2 * app.heartbeatInterval;
    if NobodyThere(st, app.heartbeatInterval, now) {
      NoFreshIsZero(entries, now, threshold);
    }
    if NonNegative(entries) && FreshTotal(entries, now, threshold) < 0x1_0000_0000 && IsReapable(st, app, now) {
      FreshTotalNonNegative(entries, now, threshold);
      SmallSumIsZero(FreshTotal(entries, now, threshold));
      forall pod | pod in entries && now - entries[pod].heartbeatAt < threshold ensures entries[pod].count == 0 {
        NothingFresh(entries, now, threshold, pod);
      }
    }
  }

  lemma SmallSumIsZero(x: int)
    requires 0 <= x < 0x1_0000_0000 && Wrap32(x) == 0
    ensures x == 0
  {
  }

  /** The 32-bit sum is only as good as its range: three entries, none of them negative
      and each within 32 bits, can sum to a reapable zero. */
  lemma SumCanWrapToZero(now: int)
    ensures exists entries: map<string, ConnectionEntry> ::
      && NonNegative(entries)
      && (forall pod :: pod in entries ==> 0 < entries[pod].count <= MAX_INT32 && entries[pod].heartbeatAt == now)
      && Wrap32(FreshTotal(entries, now, 1)) == 0
      && FreshTotal(entries, now, 1) > 0
  {
    var a, b, c := ConnectionEntry(MAX_INT32, now), ConnectionEntry(MAX_INT32, now), ConnectionEntry(2, now);
    var entries := map["a" := a, "b" := b, "c" := c];
    FreshTotalTake(entries, now, 1, "a");
    FreshTotalTake(entries - {"a"}, now, 1, "b");
    FreshTotalTake(entries - {"a"} - {"b"}, now, 1, "c");
    assert entries - {"a"} - {"b"} - {"c"} == map[];
    assert FreshTotal(entries, now, 1) == 2 * TWO_31;
  }
}
