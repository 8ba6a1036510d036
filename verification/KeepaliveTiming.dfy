// When the keepalive touches: an ideal ticker, and activity stamps that are taken at once.
module KeepaliveTiming {

  // The latest stamp, the present moment, and the moment of the next tick.
  datatype Clock = Clock(last: int, now: int, nextTick: int)

  // A tick happens exactly at nextTick; a Connect at any moment up to it.
  datatype Moment = ConnectAt(t: int) | TickAt(t: int)

  predicate Possible(c: Clock, m: Moment) {
    match m
    case ConnectAt(t) => c.now <= t <= c.nextTick
    case TickAt(t) => t == c.nextTick
  }

  // The loop touches at a tick when the connector has been idle for an interval.
  predicate Touches(c: Clock, m: Moment, interval: int) {
    m.TickAt? && m.t - c.last >= interval
  }

  function After(c: Clock, m: Moment, interval: int): Clock {
    match m
    case ConnectAt(t) => Clock(t, t, c.nextTick)
    case TickAt(t) => Clock(if Touches(c, m, interval) then t else c.last, t, t + interval)
  }

  function RunFrom(c: Clock, moments: seq<Moment>, interval: int): Clock {
    if moments == [] then c else After(RunFrom(c, moments[..|moments| - 1], interval), moments[|moments| - 1], interval)
  }

  predicate PossibleRun(c: Clock, moments: seq<Moment>, interval: int) {
    moments == []
    || (&& PossibleRun(c, moments[..|moments| - 1], interval)
        && Possible(RunFrom(c, moments[..|moments| - 1], interval), moments[|moments| - 1]))
  }

  // The first Connect stamps at t0; the loop it starts makes its ticker less than an interval later.
  predicate Started(c: Clock, interval: int) {
    0 < interval && c.last <= c.now < c.last + interval && c.nextTick == c.now + interval
  }

  // All stamps of a run, in order: the first one, every Connect and every touch.
  function Stamps(c: Clock, moments: seq<Moment>, interval: int): seq<int> {
    if moments == [] then [c.last]
    else
      var init, m := moments[..|moments| - 1], moments[|moments| - 1];
      var before := RunFrom(c, init, interval);
      Stamps(c, init, interval) + if m.ConnectAt? || Touches(before, m, interval) then [m.t] else []
  }

  predicate Increasing(stamps: seq<int>) {
    forall i, j :: 0 <= i <= j < |stamps| ==> stamps[i] <= stamps[j]
  }

  predicate GapsBelow(stamps: seq<int>, bound: int) {
    forall i :: 0 <= i < |stamps| - 1 ==> stamps[i + 1] - stamps[i] < bound
  }

  lemma {:induction false} RunKeepsPace(c: Clock, moments: seq<Moment>, interval: int)
    requires Started(c, interval) && PossibleRun(c, moments, interval)
    ensures var r, stamps := RunFrom(c, moments, interval), Stamps(c, moments, interval);
      && r.last <= r.now <= r.nextTick < r.last + 2 * interval
      && stamps != [] && stamps[|stamps| - 1] == r.last
      && Increasing(stamps)
      && GapsBelow(stamps, 2 * interval)
  {
    if moments != [] {
      RunKeepsPace(c, moments[..|moments| - 1], interval);
    }
  }

  // While the loop runs, stamps in a row are less than two intervals apart, and so is the present
  // from the latest stamp.
  lemma NeverColdForTwoIntervals(c: Clock, moments: seq<Moment>, interval: int)
    requires Started(c, interval) && PossibleRun(c, moments, interval)
    ensures GapsBelow(Stamps(c, moments, interval), 2 * interval)
    ensures var r := RunFrom(c, moments, interval); r.now - r.last < 2 * interval && r.nextTick - r.last < 2 * interval
  {
    RunKeepsPace(c, moments, interval);
  }

  // A touch is decided only when nothing was stamped in the interval before it, by anyone.
  lemma TouchesOnlyWhenIdle(c: Clock, moments: seq<Moment>, m: Moment, interval: int)
    requires Started(c, interval) && PossibleRun(c, moments, interval)
    requires Possible(RunFrom(c, moments, interval), m) && m.TickAt?
    ensures Touches(RunFrom(c, moments, interval), m, interval) <==>
      forall s :: s in Stamps(c, moments, interval) ==> s <= m.t - interval
  {
    RunKeepsPace(c, moments, interval);
    var stamps := Stamps(c, moments, interval);
    assert stamps[|stamps| - 1] in stamps;
  }

  // The bound is sharp: the gaps that occur are exactly those below two intervals. An interval just
  // under the server's suspend threshold can therefore still let it suspend.
  lemma GapsExactly(interval: int, gap: int)
    requires 0 < interval && 0 <= gap
    ensures gap < 2 * interval <==>
      exists moments :: (
        PossibleRun(Clock(0, 0, interval), moments, interval)
        && HasGap(Stamps(Clock(0, 0, interval), moments, interval), gap))
  {
    var c := Clock(0, 0, interval);
    if gap < interval {
      GapOfConnect(interval, gap);
    } else if gap < 2 * interval {
      GapOfTouch(interval, gap);
    } else {
      forall moments | PossibleRun(c, moments, interval)
        ensures !HasGap(Stamps(c, moments, interval), gap)
      {
        RunKeepsPace(c, moments, interval);
      }
    }
  }

  predicate HasGap(stamps: seq<int>, gap: int) {
    exists i :: 0 <= i < |stamps| - 1 && stamps[i + 1] - stamps[i] == gap
  }

  // One more moment of a run.
  lemma MomentSnoc(c: Clock, moments: seq<Moment>, m: Moment, interval: int)
    requires PossibleRun(c, moments, interval) && Possible(RunFrom(c, moments, interval), m)
    ensures PossibleRun(c, moments + [m], interval)
    ensures RunFrom(c, moments + [m], interval) == After(RunFrom(c, moments, interval), m, interval)
    ensures Stamps(c, moments + [m], interval) ==
      if m.ConnectAt? || Touches(RunFrom(c, moments, interval), m, interval)
      then Stamps(c, moments, interval) + [m.t] else Stamps(c, moments, interval)
  {
    assert (moments + [m])[..|moments|] == moments;
  }

  lemma HasGapAt(stamps: seq<int>, i: nat, gap: int)
    requires i + 1 < |stamps| && stamps[i + 1] - stamps[i] == gap
    ensures HasGap(stamps, gap)
  {
  }

  lemma GapOfConnect(interval: int, gap: int)
    requires 0 <= gap < interval
    ensures exists moments :: (
      PossibleRun(Clock(0, 0, interval), moments, interval)
      && HasGap(Stamps(Clock(0, 0, interval), moments, interval), gap))
  {
    var c := Clock(0, 0, interval);
    var moments := [] + [ConnectAt(gap)];
    MomentSnoc(c, [], ConnectAt(gap), interval);
    HasGapAt(Stamps(c, moments, interval), 0, gap);
    assert PossibleRun(c, moments, interval) && HasGap(Stamps(c, moments, interval), gap);
  }

  // A Connect just after a tick is skipped at the next tick and touched only at the one after.
  lemma GapOfTouch(interval: int, gap: int)
    requires 0 < interval <= gap < 2 * interval
    ensures exists moments :: (
      PossibleRun(Clock(0, 0, interval), moments, interval)
      && HasGap(Stamps(Clock(0, 0, interval), moments, interval), gap))
  {
    var c, at := Clock(0, 0, interval), 2 * interval - gap;
    var one := [] + [ConnectAt(at)];
    var two := one + [TickAt(interval)];
    var moments := two + [TickAt(2 * interval)];
    MomentSnoc(c, [], ConnectAt(at), interval);
    MomentSnoc(c, one, TickAt(interval), interval);
    MomentSnoc(c, two, TickAt(2 * interval), interval);
    HasGapAt(Stamps(c, moments, interval), 1, gap);
    assert PossibleRun(c, moments, interval) && HasGap(Stamps(c, moments, interval), gap);
  }
}
