/** Activity recorded by several replicas whose reads and patches interleave: when it goes
    back, and why a touch taken as one step never takes it back. */
module TouchRuns {
  import opened Api
  import opened MergePatch
  import opened StatusPatches
  import Protocol

  /** A touch that read a time as late as its own writes nothing; any other stores its
      time, over whatever is stored by then. */
  function TouchAfter(read: Option<int>, stored: Option<int>, at: int): Option<int> {
    if read.Some? && read.value >= at then stored else Some(at)
  }

  /** That is what the patch of such a touch does to a status that has moved on. */
  lemma SplitTouch(read: Status, live: Status, at: int)
    ensures Member(Some(Apply(Some(Doc(live)), Diff(Doc(read), Doc(Protocol.TouchStatus(read, at))))), "lastActivity")
         == Instant(TouchAfter(read.traffic.lastActivity, live.traffic.lastActivity, at))
  {
    PatchedMember(read, Protocol.TouchStatus(read, at), live, "lastActivity");
  }

  /** The stored activity of one workspace, and what handlers that have not yet touched it
      have read. */
  datatype Touches = Touches(stored: Option<int>, read: map<nat, Option<int>>)

  datatype TouchStep = ReadActivity(handler: nat) | Touch(handler: nat, at: int)

  function NextTouches(w: Touches, s: TouchStep): Touches {
    match s
    case ReadActivity(h) => w.(read := w.read[h := w.stored])
    case Touch(h, at) =>
      if h in w.read then Touches(TouchAfter(w.read[h], w.stored, at), w.read - {h}) else w
  }

  function RunTouches(w: Touches, steps: seq<TouchStep>): Touches
    decreases |steps|
  {
    if steps == [] then w else RunTouches(NextTouches(w, steps[0]), steps[1..])
  }

  predicate NotBack(before: Option<int>, after: Option<int>) {
    before.Some? ==> after.Some? && after.value >= before.value
  }

  /** Nothing later than the touch is stored, or the touch has read something as late. */
  predicate Heeds(w: Touches, s: TouchStep) {
    s.Touch? && s.handler in w.read && w.stored.Some? ==>
      s.at >= w.stored.value || (w.read[s.handler].Some? && w.read[s.handler].value >= s.at)
  }

  /** A step takes the stored activity back if and only if it is a touch with a time before
      the stored one and after the one it read. */
  lemma StepKeepsActivityExactly(w: Touches, s: TouchStep)
    ensures NotBack(w.stored, NextTouches(w, s).stored) <==> Heeds(w, s)
  {
  }

  predicate NeverBack(w: Touches, steps: seq<TouchStep>)
    decreases |steps|
  {
    steps != [] ==> NotBack(w.stored, NextTouches(w, steps[0]).stored) && NeverBack(NextTouches(w, steps[0]), steps[1..])
  }

  predicate AllHeed(w: Touches, steps: seq<TouchStep>)
    decreases |steps|
  {
    steps != [] ==> Heeds(w, steps[0]) && AllHeed(NextTouches(w, steps[0]), steps[1..])
  }

  /** Over any run of interleaved reads and touches the stored activity never goes back if
      and only if every touch heeds. */
  lemma {:induction false} RunKeepsActivityExactly(w: Touches, steps: seq<TouchStep>)
    ensures NeverBack(w, steps) <==> AllHeed(w, steps)
    decreases |steps|
  {
    if steps != [] {
      StepKeepsActivityExactly(w, steps[0]);
      RunKeepsActivityExactly(NextTouches(w, steps[0]), steps[1..]);
    }
  }

  /** Two replicas read zero, one stores ten, and the other then stores five. */
  lemma ActivityCanGoBack()
    ensures var w := Touches(Some(0), map[]);
      && RunTouches(w, [ReadActivity(0), ReadActivity(1), Touch(0, 10)]).stored == Some(10)
      && RunTouches(w, [ReadActivity(0), ReadActivity(1), Touch(0, 10), Touch(1, 5)]).stored == Some(5)
  {
    var w := Touches(Some(0), map[]);
    var a, b := [ReadActivity(0), ReadActivity(1), Touch(0, 10)], [Touch(1, 5)];
    var later := Touches(Some(10), map[1 := Some(0)]);
    assert a[1..] == [ReadActivity(1), Touch(0, 10)] && a[1..][1..] == [Touch(0, 10)] && a[1..][1..][1..] == [];
    assert NextTouches(NextTouches(NextTouches(w, a[0]), a[1]), a[2]) == later;
    assert RunTouches(w, a) == later;
    RunTouchesConcat(w, a, b);
    assert a + b == [ReadActivity(0), ReadActivity(1), Touch(0, 10), Touch(1, 5)];
    assert b[1..] == [];
  }

  lemma {:induction false} RunTouchesConcat(w: Touches, a: seq<TouchStep>, b: seq<TouchStep>)
    ensures RunTouches(w, a + b) == RunTouches(RunTouches(w, a), b)
    decreases |a|
  {
    if a == [] {
      assert a + b == b;
    } else {
      assert (a + b)[1..] == a[1..] + b;
      RunTouchesConcat(NextTouches(w, a[0]), a[1..], b);
    }
  }

  /** A touch that writes right after it reads is the protocol's; it leaves the later of the
      two times, and so never goes back. */
  lemma WholeTouchKeepsActivity(w: Touches, h: nat, at: int, st: Status)
    requires st.traffic.lastActivity == w.stored
    ensures var w' := NextTouches(NextTouches(w, ReadActivity(h)), Touch(h, at));
      && w'.stored == Protocol.TouchStatus(st, at).traffic.lastActivity
      && w'.stored == Some(if w.stored.Some? then Max(w.stored.value, at) else at)
      && NotBack(w.stored, w'.stored)
  {
  }
}
