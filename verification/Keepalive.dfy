// The start and stop protocol of the keepalive connector, as a state machine over the steps of any
// number of concurrent Connect and Close calls and of the loop goroutines they start.
module Keepalive {
  import opened Wrappers

  // Connect: store the time, compare-and-swap started, start the loop if that won, connect inside.
  datatype ConnectPc = Stamping | Swapping | Spawning | Connecting | Connected

  // Close: enter the Once, close stop, read started, wait for done, leave the Once, close inside.
  datatype ClosePc =
    Entering | ClosingStop | ReadingStarted | Awaiting | Leaving(sawStarted: bool) | ClosingInner | Closed

  // loop: wait in the select, decide after a tick, or touch by a Connect of its own; then close done.
  datatype LoopPc =
    Selecting | Deciding | TouchStamping | TouchSwapping | TouchSpawning | Touching | ClosingDone | Ended

  // A Once remembers the caller inside it, and then whether that caller saw the loop started.
  datatype Once = Unused | Running(k: nat) | Finished(sawStarted: bool)

  datatype State = State(
    started: bool,
    once: Once,
    stopCloses: nat,
    doneCloses: nat,
    connects: map<nat, ConnectPc>,
    closes: map<nat, ClosePc>,
    loops: seq<LoopPc>)

  const INITIAL := State(false, Unused, 0, 0, map[], map[], [])

  datatype Step =
    | CallConnect(c: nat)
    | Stamp(c: nat)
    | Swap(c: nat)
    | Spawn(c: nat)
    | Connect(c: nat)
    | CallClose(k: nat)
    | Enter(k: nat)
    | CloseStop(k: nat)
    | ReadStarted(k: nat)
    | AwaitDone(k: nat)
    | Leave(k: nat)
    | CloseInner(k: nat)
    | TakeStop(l: nat)
    | TakeTick(l: nat)
    | Skip(l: nat)
    | Touch(l: nat)
    | TouchStamp(l: nat)
    | TouchSwap(l: nat)
    | TouchSpawn(l: nat)
    | TouchDone(l: nat)
    | CloseDone(l: nat)

  predicate ConnectAt(s: State, c: nat, pc: ConnectPc) {
    c in s.connects && s.connects[c] == pc
  }

  predicate CloseAt(s: State, k: nat, pc: ClosePc) {
    k in s.closes && s.closes[k] == pc
  }

  predicate LoopAt(s: State, l: nat, pc: LoopPc) {
    l < |s.loops| && s.loops[l] == pc
  }

  predicate Enabled(s: State, e: Step) {
    match e
    case CallConnect(c) => c !in s.connects
    case Stamp(c) => ConnectAt(s, c, Stamping)
    case Swap(c) => ConnectAt(s, c, Swapping)
    case Spawn(c) => ConnectAt(s, c, Spawning)
    case Connect(c) => ConnectAt(s, c, Connecting)
    case CallClose(k) => k !in s.closes
    // A second caller waits until the first has left the Once.
    case Enter(k) => CloseAt(s, k, Entering) && !s.once.Running?
    case CloseStop(k) => CloseAt(s, k, ClosingStop)
    case ReadStarted(k) => CloseAt(s, k, ReadingStarted)
    case AwaitDone(k) => CloseAt(s, k, Awaiting) && s.doneCloses > 0
    case Leave(k) => k in s.closes && s.closes[k].Leaving?
    case CloseInner(k) => CloseAt(s, k, ClosingInner)
    case TakeStop(l) => LoopAt(s, l, Selecting) && s.stopCloses > 0
    case TakeTick(l) => LoopAt(s, l, Selecting)
    case Skip(l) => LoopAt(s, l, Deciding)
    case Touch(l) => LoopAt(s, l, Deciding)
    case TouchStamp(l) => LoopAt(s, l, TouchStamping)
    case TouchSwap(l) => LoopAt(s, l, TouchSwapping)
    case TouchSpawn(l) => LoopAt(s, l, TouchSpawning)
    case TouchDone(l) => LoopAt(s, l, Touching)
    case CloseDone(l) => LoopAt(s, l, ClosingDone)
  }

  function At(s: State, c: nat, pc: ConnectPc): State {
    s.(connects := s.connects[c := pc])
  }

  function CloseTo(s: State, k: nat, pc: ClosePc): State {
    s.(closes := s.closes[k := pc])
  }

  function LoopTo(s: State, l: nat, pc: LoopPc): State
    requires l < |s.loops|
  {
    s.(loops := s.loops[l := pc])
  }

  function Next(s: State, e: Step): State
    requires Enabled(s, e)
  {
    match e
    case CallConnect(c) => At(s, c, Stamping)
    case Stamp(c) => At(s, c, Swapping)
    case Swap(c) => if s.started then At(s, c, Connecting) else At(s.(started := true), c, Spawning)
    case Spawn(c) => At(s.(loops := s.loops + [Selecting]), c, Connecting)
    case Connect(c) => At(s, c, Connected)
    case CallClose(k) => CloseTo(s, k, Entering)
    case Enter(k) =>
      if s.once == Unused then CloseTo(s.(once := Running(k)), k, ClosingStop) else CloseTo(s, k, ClosingInner)
    case CloseStop(k) => CloseTo(s.(stopCloses := s.stopCloses + 1), k, ReadingStarted)
    case ReadStarted(k) => CloseTo(s, k, if s.started then Awaiting else Leaving(false))
    case AwaitDone(k) => CloseTo(s, k, Leaving(true))
    case Leave(k) => CloseTo(s.(once := Finished(s.closes[k].sawStarted)), k, ClosingInner)
    case CloseInner(k) => CloseTo(s, k, Closed)
    case TakeStop(l) => LoopTo(s, l, ClosingDone)
    case TakeTick(l) => LoopTo(s, l, Deciding)
    case Skip(l) => LoopTo(s, l, Selecting)
    case Touch(l) => LoopTo(s, l, TouchStamping)
    case TouchStamp(l) => LoopTo(s, l, TouchSwapping)
    case TouchSwap(l) => if s.started then LoopTo(s, l, Touching) else LoopTo(s.(started := true), l, TouchSpawning)
    case TouchSpawn(l) => LoopTo(s, l, Touching).(loops := s.loops[l := Touching] + [Selecting])
    case TouchDone(l) => LoopTo(s, l, Selecting)
    case CloseDone(l) => LoopTo(s.(doneCloses := s.doneCloses + 1), l, Ended)
  }

  // The state a list of steps leads to; None when one of them is not possible where it stands.
  function Run(s: State, steps: seq<Step>): Option<State> {
    if steps == [] then Some(s)
    else
      match Run(s, steps[..|steps| - 1])
      case None => None
      case Some(t) => if Enabled(t, steps[|steps| - 1]) then Some(Next(t, steps[|steps| - 1])) else None
  }

  // ---- invariant -----------------------------------------------------------------------------

  function Spawners(s: State): set<nat> {
    set c | c in s.connects && s.connects[c] == Spawning
  }

  predicate InsideOnce(pc: ClosePc) {
    pc.ClosingStop? || pc.ReadingStarted? || pc.Awaiting? || pc.Leaving?
  }

  // One loop for the caller that won the swap: spawned, or about to be.
  ghost predicate LoopInv(s: State) {
    && |s.loops| + |Spawners(s)| == (if s.started then 1 else 0)
    && s.doneCloses == (if s.loops == [Ended] then 1 else 0)
    && forall l :: 0 <= l < |s.loops| ==> s.loops[l] != TouchSpawning
  }

  // At most one Close is inside the Once; it or an earlier one has closed stop.
  ghost predicate OnceInv(s: State) {
    && (forall k :: k in s.closes && InsideOnce(s.closes[k]) ==> s.once == Running(k))
    && (s.once.Running? ==> s.once.k in s.closes && InsideOnce(s.closes[s.once.k]))
    && s.stopCloses == (if s.once == Unused || (s.once.Running? && s.closes[s.once.k] == ClosingStop) then 0 else 1)
    && (!s.once.Finished? ==> forall k :: k in s.closes ==> s.closes[k] == Entering || InsideOnce(s.closes[k]))
  }

  // A Close that waits, or that has waited, waits for a loop that was or will be spawned.
  ghost predicate WaitInv(s: State) {
    && (forall k :: k in s.closes && s.closes[k] == Awaiting ==> s.started)
    && (forall k :: k in s.closes && s.closes[k] == Leaving(true) ==> s.loops == [Ended])
    && (s.once == Finished(true) ==> s.loops == [Ended])
  }

  ghost predicate Inv(s: State) {
    LoopInv(s) && OnceInv(s) && WaitInv(s)
  }

  lemma LoopInvConnectStep(s: State, e: Step)
    requires LoopInv(s) && Enabled(s, e)
    requires e.CallConnect? || e.Stamp? || e.Swap? || e.Spawn? || e.Connect?
    ensures LoopInv(Next(s, e)) && (s.loops == [Ended] ==> Next(s, e).loops == [Ended])
  {
    var t := Next(s, e);
    match e {
      case Swap(c) =>
        if s.started {
          assert Spawners(t) == Spawners(s);
        } else {
          assert Spawners(s) == {};
          assert Spawners(t) == {c};
        }
      case Spawn(c) =>
        assert c in Spawners(s);
        assert Spawners(t) == Spawners(s) - {c};
        assert s.loops == [] && t.loops == [Selecting];
      case _ =>
        assert Spawners(t) == Spawners(s);
    }
  }

  lemma LoopInvOtherStep(s: State, e: Step)
    requires LoopInv(s) && Enabled(s, e)
    requires !(e.CallConnect? || e.Stamp? || e.Swap? || e.Spawn? || e.Connect?)
    ensures LoopInv(Next(s, e)) && (s.loops == [Ended] ==> Next(s, e).loops == [Ended])
  {
    assert Spawners(Next(s, e)) == Spawners(s);
    assert s.loops == [] || s.loops == [s.loops[0]];
  }

  lemma OnceInvStep(s: State, e: Step)
    requires OnceInv(s) && Enabled(s, e)
    ensures OnceInv(Next(s, e))
  {
  }

  lemma WaitInvStep(s: State, e: Step)
    requires Inv(s) && Enabled(s, e)
    requires s.loops == [Ended] ==> Next(s, e).loops == [Ended]
    ensures WaitInv(Next(s, e))
  {
    if e.AwaitDone? {
      assert s.loops == [Ended];
    }
  }

  lemma InvStep(s: State, e: Step)
    requires Inv(s) && Enabled(s, e)
    ensures Inv(Next(s, e))
    ensures s.loops == [Ended] ==> Next(s, e).loops == [Ended]
  {
    if e.CallConnect? || e.Stamp? || e.Swap? || e.Spawn? || e.Connect? {
      LoopInvConnectStep(s, e);
    } else {
      LoopInvOtherStep(s, e);
    }
    OnceInvStep(s, e);
    WaitInvStep(s, e);
  }

  lemma {:induction false} InvRun(s: State, steps: seq<Step>)
    requires Inv(s) && Run(s, steps).Some?
    ensures Inv(Run(s, steps).value)
    ensures s.loops == [Ended] ==> Run(s, steps).value.loops == [Ended]
  {
    if steps != [] {
      var init := steps[..|steps| - 1];
      InvRun(s, init);
      InvStep(Run(s, init).value, steps[|steps| - 1]);
    }
  }

  // ---- what the protocol guarantees, under every interleaving --------------------------------

  // At most one loop ever runs, neither channel is closed twice, and a Close only waits for a loop
  // that was spawned or is about to be.
  lemma ProtocolIsSafe(steps: seq<Step>)
    requires Run(INITIAL, steps).Some?
    ensures var s := Run(INITIAL, steps).value;
      && |s.loops| <= 1 && s.stopCloses <= 1 && s.doneCloses <= 1
      && (forall k :: CloseAt(s, k, Awaiting) ==> |s.loops| + |Spawners(s)| == 1)
  {
    assert Spawners(INITIAL) == {};
    InvRun(INITIAL, steps);
  }

  predicate IsLoopWork(e: Step) {
    e.TakeTick? || e.Touch? || e.TouchStamp? || e.TouchSwap? || e.TouchSpawn? || e.TouchDone? || e.Spawn?
  }

  lemma NothingLeftToDo(s: State, e: Step)
    requires LoopInv(s) && s.loops == [Ended] && Enabled(s, e)
    ensures !IsLoopWork(e)
  {
    assert Spawners(s) == {};
    assert forall c :: ConnectAt(s, c, Spawning) ==> c in Spawners(s);
  }

  // Once the only loop has ended, nothing touches the database on its own any more.
  lemma {:induction false} EndedStaysEnded(s: State, more: seq<Step>)
    requires Inv(s) && s.loops == [Ended] && Run(s, more).Some?
    ensures Run(s, more).value.loops == [Ended] && Inv(Run(s, more).value)
    ensures forall e :: e in more ==> !IsLoopWork(e)
  {
    if more != [] {
      var init, last := more[..|more| - 1], more[|more| - 1];
      EndedStaysEnded(s, init);
      InvStep(Run(s, init).value, last);
      NothingLeftToDo(Run(s, init).value, last);
      assert more == init + [last];
    }
  }

  // How far a Close that read started as true has come.
  ghost predicate SawStarted(s: State, k: nat) {
    || CloseAt(s, k, Awaiting)
    || CloseAt(s, k, Leaving(true))
    || ((CloseAt(s, k, ClosingInner) || CloseAt(s, k, Closed)) && s.once == Finished(true))
  }

  lemma {:induction false} SawStartedStays(s: State, k: nat, steps: seq<Step>)
    requires Inv(s) && SawStarted(s, k) && Run(s, steps).Some?
    ensures SawStarted(Run(s, steps).value, k)
  {
    if steps != [] {
      var init := steps[..|steps| - 1];
      SawStartedStays(s, k, init);
      InvRun(s, init);
      SawStartedStep(Run(s, init).value, k, steps[|steps| - 1]);
    }
  }

  lemma SawStartedStep(s: State, k: nat, e: Step)
    requires OnceInv(s) && SawStarted(s, k) && Enabled(s, e)
    ensures SawStarted(Next(s, e), k)
  {
  }

  // When a Close has read started as true and returned, the loop has ended, and in whatever happens
  // after that there is no tick, no touch and no new loop.
  lemma NoTouchAfterClose(before: seq<Step>, k: nat, during: seq<Step>, after: seq<Step>)
    requires Run(INITIAL, before).Some?
    requires var s := Run(INITIAL, before).value;
      && CloseAt(s, k, ReadingStarted) && s.started
      && Run(Next(s, ReadStarted(k)), during).Some?
      && var t := Run(Next(s, ReadStarted(k)), during).value;
      && CloseAt(t, k, Closed)
      && Run(t, after).Some?
    ensures forall e :: e in after ==> !IsLoopWork(e)
    ensures Run(Run(Next(Run(INITIAL, before).value, ReadStarted(k)), during).value, after).value.loops == [Ended]
  {
    assert Spawners(INITIAL) == {};
    InvRun(INITIAL, before);
    var s := Run(INITIAL, before).value;
    var s' := Next(s, ReadStarted(k));
    InvStep(s, ReadStarted(k));
    SawStartedStays(s', k, during);
    InvRun(s', during);
    EndedStaysEnded(Run(s', during).value, after);
  }

  lemma RunSnoc(s: State, steps: seq<Step>, e: Step)
    requires Run(s, steps).Some? && Enabled(Run(s, steps).value, e)
    ensures Run(s, steps + [e]) == Some(Next(Run(s, steps).value, e))
  {
    assert (steps + [e])[..|steps|] == steps;
  }

  lemma {:induction false} RunCons(s: State, e: Step, steps: seq<Step>)
    requires Enabled(s, e) && Run(Next(s, e), steps).Some?
    ensures Run(s, [e] + steps) == Run(Next(s, e), steps)
  {
    if steps == [] {
      RunSnoc(s, [], e);
      assert [] + [e] == [e] == [e] + steps;
    } else {
      var init, last := steps[..|steps| - 1], steps[|steps| - 1];
      RunCons(s, e, init);
      RunSnoc(s, [e] + init, last);
      assert ([e] + init) + [last] == [e] + steps;
    }
  }

  lemma {:induction false} RunAppend(s: State, a: seq<Step>, b: seq<Step>)
    requires Run(s, a).Some? && Run(Run(s, a).value, b).Some?
    ensures Run(s, a + b) == Run(Run(s, a).value, b)
  {
    if b == [] {
      assert a + b == a;
    } else {
      var init, last := b[..|b| - 1], b[|b| - 1];
      RunAppend(s, a, init);
      RunSnoc(s, a + init, last);
      assert (a + init) + [last] == a + b;
    }
  }

  lemma RunThree(s: State, e: Step, f: Step, g: Step)
    requires Enabled(s, e) && Enabled(Next(s, e), f) && Enabled(Next(Next(s, e), f), g)
    ensures Run(s, [e, f, g]) == Some(Next(Next(Next(s, e), f), g))
  {
    RunSnoc(s, [], e);
    assert [] + [e] == [e];
    RunSnoc(s, [e], f);
    assert [e] + [f] == [e, f];
    RunSnoc(s, [e, f], g);
    assert [e, f] + [g] == [e, f, g];
  }

  // ---- when a touch can still come -----------------------------------------------------------

  // A touch is under way, or some interleaving leads to one.
  ghost predicate MayTouch(s: State) {
    exists more :: Run(s, more).Some? && Run(s, more).value.loops == [Touching]
  }

  predicate OnItsWayOut(s: State) {
    s.loops == [ClosingDone] || s.loops == [Ended]
  }

  lemma {:induction false} WayOutIsFinal(s: State, more: seq<Step>)
    requires Inv(s) && OnItsWayOut(s) && Run(s, more).Some?
    ensures OnItsWayOut(Run(s, more).value)
  {
    if more != [] {
      var init := more[..|more| - 1];
      WayOutIsFinal(s, init);
      InvRun(s, init);
      WayOutStep(Run(s, init).value, more[|more| - 1]);
    }
  }

  lemma WayOutStep(s: State, e: Step)
    requires LoopInv(s) && OnItsWayOut(s) && Enabled(s, e)
    ensures OnItsWayOut(Next(s, e))
  {
    assert Spawners(s) == {};
    assert forall c :: ConnectAt(s, c, Spawning) ==> c in Spawners(s);
  }

  // How many steps of the loop there are to a touch; an unstarted connector comes first.
  function TouchDistance(s: State): nat {
    if s.loops == [] then (if s.started then 5 else 6)
    else
      match s.loops[0]
      case Selecting => 4
      case Deciding => 3
      case TouchStamping => 2
      case TouchSwapping => 1
      case _ => 0
  }

  // The next step of a loop on its way to a touch.
  function WayToTouch(pc: LoopPc): Step {
    match pc
    case Selecting => TakeTick(0)
    case Deciding => Touch(0)
    case TouchStamping => TouchStamp(0)
    case _ => TouchSwap(0)
  }

  lemma FreshCaller(m: map<nat, ConnectPc>) returns (c: nat)
    ensures c !in m
  {
    c := AboveAll(m.Keys);
  }

  lemma {:induction false} AboveAll(keys: set<nat>) returns (c: nat)
    ensures forall k :: k in keys ==> k < c
    decreases |keys|
  {
    c := 0;
    if keys != {} {
      var k :| k in keys;
      var d := AboveAll(keys - {k});
      c := if k < d then d else k + 1;
      assert forall x :: x in keys ==> x == k || x in keys - {k};
    }
  }

  // A Connect by a new caller, up to the point where it has to start the loop.
  lemma StartsByConnect(s: State) returns (steps: seq<Step>)
    requires Inv(s) && s.loops == [] && !s.started
    ensures Run(s, steps).Some?
    ensures var t := Run(s, steps).value; Inv(t) && t.loops == [] && t.started
  {
    var c := FreshCaller(s.connects);
    steps := [CallConnect(c), Stamp(c), Swap(c)];
    RunThree(s, CallConnect(c), Stamp(c), Swap(c));
    InvRun(s, steps);
  }

  lemma {:induction false} TouchInReach(s: State) returns (steps: seq<Step>)
    requires Inv(s) && !OnItsWayOut(s)
    ensures Run(s, steps).Some? && Run(s, steps).value.loops == [Touching]
    decreases TouchDistance(s)
  {
    if s.loops == [Touching] {
      steps := [];
    } else if s.loops == [] && !s.started {
      var start := StartsByConnect(s);
      var rest := TouchInReach(Run(s, start).value);
      RunAppend(s, start, rest);
      steps := start + rest;
    } else {
      var e: Step;
      if s.loops == [] {
        var c :| c in Spawners(s);
        e := Spawn(c);
      } else {
        assert s.loops == [s.loops[0]];
        e := WayToTouch(s.loops[0]);
      }
      InvStep(s, e);
      var rest := TouchInReach(Next(s, e));
      RunCons(s, e, rest);
      steps := [e] + rest;
    }
  }

  // In every reachable state, whoever has called Close and however far it has come, a touch can
  // still come if and only if the loop has not taken its way out.
  lemma TouchExactly(steps: seq<Step>)
    requires Run(INITIAL, steps).Some?
    ensures MayTouch(Run(INITIAL, steps).value) <==> !OnItsWayOut(Run(INITIAL, steps).value)
  {
    assert Spawners(INITIAL) == {};
    InvRun(INITIAL, steps);
    var s := Run(INITIAL, steps).value;
    if OnItsWayOut(s) {
      forall more | Run(s, more).Some?
        ensures Run(s, more).value.loops != [Touching]
      {
        WayOutIsFinal(s, more);
      }
    } else {
      var more := TouchInReach(s);
    }
  }

  function CloseRun(): seq<Step> {
    [CallClose(0), Enter(0), CloseStop(0)] + [ReadStarted(0), Leave(0), CloseInner(0)]
  }

  // A Close that finds nothing started leaves the loop to come unstopped.
  lemma RunsEarlyClose()
    ensures Run(INITIAL, CloseRun()).Some?
    ensures var s := Run(INITIAL, CloseRun()).value;
      CloseAt(s, 0, Closed) && s.once == Finished(false) && s.loops == []
  {
    RunThree(INITIAL, CallClose(0), Enter(0), CloseStop(0));
    var s := Run(INITIAL, [CallClose(0), Enter(0), CloseStop(0)]).value;
    RunsLeave(s);
    RunAppend(INITIAL, [CallClose(0), Enter(0), CloseStop(0)], [ReadStarted(0), Leave(0), CloseInner(0)]);
  }

  lemma RunsLeave(s: State)
    requires CloseAt(s, 0, ReadingStarted) && !s.started
    ensures var t := Run(s, [ReadStarted(0), Leave(0), CloseInner(0)]);
      t.Some? && CloseAt(t.value, 0, Closed) && t.value.once == Finished(false) && t.value.loops == s.loops
  {
    RunThree(s, ReadStarted(0), Leave(0), CloseInner(0));
  }

  // So a touch can come after a Close has returned.
  lemma LateLoopMayTouch()
    ensures Run(INITIAL, CloseRun()).Some?
    ensures var s := Run(INITIAL, CloseRun()).value; CloseAt(s, 0, Closed) && MayTouch(s)
  {
    RunsEarlyClose();
    TouchExactly(CloseRun());
  }

  // ---- a waiting Close can always be released ------------------------------------------------

  // The next step of a loop on its way out, once stop is closed.
  function WayOut(pc: LoopPc): Step {
    match pc
    case Selecting => TakeStop(0)
    case Deciding => Skip(0)
    case TouchStamping => TouchStamp(0)
    case TouchSwapping => TouchSwap(0)
    case TouchSpawning => TouchSpawn(0)
    case Touching => TouchDone(0)
    case ClosingDone => CloseDone(0)
    case Ended => CloseDone(0)
  }

  function Distance(s: State): nat {
    if s.loops == [] then 6
    else
      match s.loops[0]
      case TouchStamping => 5
      case TouchSwapping => 4
      case TouchSpawning => 4
      case Touching => 3
      case Deciding => 3
      case Selecting => 2
      case ClosingDone => 1
      case Ended => 0
  }

  // Steps of the loop alone, then of the Close, bring a waiting Close out of the Once.
  lemma {:induction false} WaitCanEnd(s: State, k: nat) returns (steps: seq<Step>)
    requires Inv(s) && CloseAt(s, k, Awaiting)
    ensures Run(s, steps).Some? && CloseAt(Run(s, steps).value, k, ClosingInner)
    ensures |steps| <= Distance(s) + 2
    decreases Distance(s)
  {
    if s.doneCloses > 0 {
      RunSnoc(s, [], AwaitDone(k));
      RunSnoc(s, [] + [AwaitDone(k)], Leave(k));
      steps := [] + [AwaitDone(k)] + [Leave(k)];
    } else {
      var e := WayOut(if s.loops == [] then Ended else s.loops[0]);
      if s.loops == [] {
        assert Spawners(s) != {};
        var c :| c in Spawners(s);
        e := Spawn(c);
      }
      InvStep(s, e);
      var rest := WaitCanEnd(Next(s, e), k);
      RunCons(s, e, rest);
      steps := [e] + rest;
    }
  }
}
