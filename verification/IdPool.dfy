// The pool of stream ids: ids in use are distinct, and never larger than the peak number in use.
module IdPools {
  import opened Integers

  type Uint32 = n: int | 0 <= n < TWO_32

  // What the pool stores: the recycled ids, and the largest id given out.
  datatype PoolState = PoolState(used: set<int>, maxUsed: Uint32)

  datatype Event =
    | GotId(id: Uint32)
    | PutId(id: Uint32, accepted: bool)

  predicate Accepts(s: PoolState, id: Uint32) {
    1 <= id <= s.maxUsed && id !in s.used
  }

  // One call. Get may hand out any recycled id; without one the counter goes up and may wrap.
  ghost predicate PoolStep(s: PoolState, e: Event, t: PoolState) {
    match e
    case GotId(id) =>
      if s.used != {} then id in s.used && t == s.(used := s.used - {id})
      else id == (s.maxUsed + 1) % TWO_32 && t == PoolState({}, id)
    case PutId(id, accepted) =>
      && accepted == Accepts(s, id)
      && t == if !accepted then s
              else if id == s.maxUsed then s.(maxUsed := id - 1)
              else s.(used := s.used + {id})
  }

  // ---- runs ----------------------------------------------------------------------------------

  const EMPTY := PoolState({}, 0)

  // states lists the pool's states of a run, one before each event and one at the end.
  ghost predicate IsRun(events: seq<Event>, states: seq<PoolState>) {
    && |states| == |events| + 1
    && states[0] == EMPTY
    && forall i :: 0 <= i < |events| ==> PoolStep(states[i], events[i], states[i + 1])
  }

  // The ids that callers hold: got and not put back since.
  function CheckedOut(events: seq<Event>): set<int> {
    if events == [] then {}
    else
      var before := CheckedOut(events[..|events| - 1]);
      match events[|events| - 1]
      case GotId(id) => before + {id}
      case PutId(id, accepted) => if accepted then before - {id} else before
  }

  // The largest number of ids held at the same time.
  function Peak(events: seq<Event>): nat {
    if events == [] then 0
    else
      var before := Peak(events[..|events| - 1]);
      var now := |CheckedOut(events)|;
      if now > before then now else before
  }

  // All ids from 1 to n.
  function UpTo(n: nat): (ids: set<int>)
    ensures forall i :: i in ids <==> 1 <= i <= n
  {
    if n == 0 then {} else UpTo(n - 1) + {n}
  }

  lemma {:induction false} UpToSize(n: nat)
    ensures |UpTo(n)| == n
  {
    if n > 0 {
      UpToSize(n - 1);
    }
  }

  ghost predicate PoolInv(events: seq<Event>, s: PoolState) {
    && s.used <= UpTo(s.maxUsed)
    && CheckedOut(events) == UpTo(s.maxUsed) - s.used
    && s.maxUsed <= Peak(events)
  }

  lemma PeakGrows(events: seq<Event>, e: Event)
    ensures Peak(events) <= Peak(events + [e]) && |CheckedOut(events + [e])| <= Peak(events + [e])
  {
    assert (events + [e])[..|events|] == events;
  }

  lemma CheckedOutSnoc(events: seq<Event>, e: Event)
    ensures CheckedOut(events + [e]) ==
      if e.GotId? then CheckedOut(events) + {e.id}
      else if e.accepted then CheckedOut(events) - {e.id}
      else CheckedOut(events)
  {
    assert (events + [e])[..|events|] == events;
  }

  lemma GetKeepsInv(events: seq<Event>, s: PoolState, id: Uint32, t: PoolState)
    requires PoolInv(events, s) && PoolStep(s, GotId(id), t) && Peak(events + [GotId(id)]) < TWO_32
    ensures PoolInv(events + [GotId(id)], t)
    ensures id !in CheckedOut(events) && id >= 1
  {
    PeakGrows(events, GotId(id));
    CheckedOutSnoc(events, GotId(id));
    if s.used == {} {
      NewId(events, s, id);
      UpToSize(id);
    }
  }

  // Without a recycled id every id up to maxUsed is held.
  lemma AllHeld(events: seq<Event>, s: PoolState)
    requires PoolInv(events, s) && s.used == {}
    ensures CheckedOut(events) == UpTo(s.maxUsed) && |CheckedOut(events)| == s.maxUsed
  {
    assert UpTo(s.maxUsed) - {} == UpTo(s.maxUsed);
    UpToSize(s.maxUsed);
  }

  // And the next one is new.
  lemma NewId(events: seq<Event>, s: PoolState, id: Uint32)
    requires PoolInv(events, s) && s.used == {} && id == (s.maxUsed + 1) % TWO_32
    requires |CheckedOut(events + [GotId(id)])| < TWO_32
    ensures id == s.maxUsed + 1
    ensures UpTo(id) == UpTo(s.maxUsed) + {id}
    ensures UpTo(id) == CheckedOut(events + [GotId(id)])
  {
    AllHeld(events, s);
    CheckedOutSnoc(events, GotId(id));
    NextFits(CheckedOut(events), s.maxUsed, id);
    UpToNext(s.maxUsed);
  }

  lemma UpToNext(n: nat)
    ensures UpTo(n + 1) == UpTo(n) + {n + 1}
  {
  }

  // A set of maxUsed ids that has room for one more below 2^32 does not make the counter wrap.
  lemma NextFits(out: set<int>, maxUsed: Uint32, id: Uint32)
    requires |out| == maxUsed && id == (maxUsed + 1) % TWO_32
    requires |out + {id}| < TWO_32 && 0 !in out
    ensures id == maxUsed + 1
  {
    assert id !in out ==> |out + {id}| == |out| + 1;
  }

  lemma PutKeepsInv(events: seq<Event>, s: PoolState, id: Uint32, accepted: bool, t: PoolState)
    requires PoolInv(events, s) && PoolStep(s, PutId(id, accepted), t)
    ensures PoolInv(events + [PutId(id, accepted)], t)
    ensures accepted <==> id in CheckedOut(events)
  {
    PeakGrows(events, PutId(id, accepted));
    CheckedOutSnoc(events, PutId(id, accepted));
  }

  // One call keeps the invariant as long as the peak fits 32 bits; an id that Get hands out was
  // not held.
  lemma PoolInvStep(events: seq<Event>, s: PoolState, e: Event, t: PoolState)
    requires PoolInv(events, s) && PoolStep(s, e, t) && Peak(events + [e]) < TWO_32
    ensures PoolInv(events + [e], t)
    ensures e.GotId? ==> e.id !in CheckedOut(events) && e.id >= 1
    ensures e.PutId? ==> (e.accepted <==> e.id in CheckedOut(events))
  {
    if e.GotId? {
      GetKeepsInv(events, s, e.id, t);
    } else {
      PutKeepsInv(events, s, e.id, e.accepted, t);
    }
  }

  // In every state of a run the ids held are exactly those up to maxUsed that are not recycled,
  // and maxUsed is at most the peak number held at once.
  lemma {:induction false} PoolInvariant(events: seq<Event>, states: seq<PoolState>)
    requires IsRun(events, states) && Peak(events) < TWO_32
    ensures PoolInv(events, states[|events|])
  {
    if events != [] {
      var n := |events| - 1;
      var init, e := events[..n], events[n];
      assert init + [e] == events;
      PeakGrows(init, e);
      PoolInvariant(init, states[..n + 1]);
      PoolInvStep(init, states[n], e, states[n + 1]);
    }
  }

  // Get hands out an id nobody holds, Put takes back exactly the ids that are held, and no id is
  // ever larger than the peak.
  lemma IdsAreUnique(events: seq<Event>, states: seq<PoolState>, e: Event, t: PoolState)
    requires IsRun(events, states) && PoolStep(states[|events|], e, t) && Peak(events + [e]) < TWO_32
    ensures e.GotId? ==> e.id !in CheckedOut(events) && 1 <= e.id <= Peak(events + [e])
    ensures e.PutId? ==> (e.accepted <==> e.id in CheckedOut(events))
  {
    PeakGrows(events, e);
    PoolInvariant(events, states);
    PoolInvStep(events, states[|events|], e, t);
    CheckedOutSnoc(events, e);
  }

  lemma SizeOfRest(n: nat, used: set<int>)
    requires used <= UpTo(n)
    ensures |UpTo(n) - used| == n - |used|
  {
    UpToSize(n);
    assert UpTo(n) == (UpTo(n) - used) + used;
  }

  // With 2^32 - 1 ids held the counter wraps.
  lemma WrapsExactly(events: seq<Event>, s: PoolState)
    requires PoolInv(events, s)
    ensures |CheckedOut(events)| <= TWO_32 - 1
    ensures |CheckedOut(events)| == TWO_32 - 1 <==> s == PoolState({}, TWO_32 - 1)
  {
    SizeOfRest(s.maxUsed, s.used);
  }

  lemma OneMoreFits(events: seq<Event>, id: Uint32)
    requires Peak(events) < TWO_32 && |CheckedOut(events)| < TWO_32 - 1
    ensures Peak(events + [GotId(id)]) < TWO_32
  {
    CheckedOutSnoc(events, GotId(id));
    assert (events + [GotId(id)])[..|events|] == events;
  }

  // After every run in which at most 2^32 - 1 ids were held at a time, Get hands out a new id and
  // leaves the pool in order if and only if fewer than 2^32 - 1 ids are held. With all of them held it
  // hands out 0, which Put never takes back.
  lemma GetIsFreshExactly(events: seq<Event>, states: seq<PoolState>, id: Uint32, t: PoolState)
    requires IsRun(events, states) && Peak(events) < TWO_32 && PoolStep(states[|events|], GotId(id), t)
    ensures id >= 1 && id !in CheckedOut(events) && PoolInv(events + [GotId(id)], t)
      <==> |CheckedOut(events)| < TWO_32 - 1
    ensures |CheckedOut(events)| == TWO_32 - 1 ==> id == 0
  {
    PoolInvariant(events, states);
    WrapsExactly(events, states[|events|]);
    if |CheckedOut(events)| < TWO_32 - 1 {
      OneMoreFits(events, id);
      PoolInvStep(events, states[|events|], GotId(id), t);
    }
  }

  // ---- a run that gets there -----------------------------------------------------------------

  function Gets(n: nat): (events: seq<Event>)
    requires n < TWO_32
    ensures |events| == n
  {
    if n == 0 then [] else Gets(n - 1) + [GotId(n)]
  }

  function GetStates(n: nat): (states: seq<PoolState>)
    requires n < TWO_32
    ensures |states| == n + 1 && states[n] == PoolState({}, n)
  {
    if n == 0 then [EMPTY] else GetStates(n - 1) + [PoolState({}, n)]
  }

  lemma RunGoesOn(events: seq<Event>, states: seq<PoolState>, e: Event, t: PoolState)
    requires IsRun(events, states) && PoolStep(states[|events|], e, t)
    ensures IsRun(events + [e], states + [t])
  {
    forall i | 0 <= i < |events + [e]|
      ensures PoolStep((states + [t])[i], (events + [e])[i], (states + [t])[i + 1])
    {
      if i < |events| {
        assert (states + [t])[i] == states[i] && (states + [t])[i + 1] == states[i + 1];
      }
    }
  }

  lemma CountsUp(n: nat)
    requires 0 < n < TWO_32
    ensures PoolStep(PoolState({}, n - 1), GotId(n), PoolState({}, n))
  {
    assert n - 1 + 1 == n && n % TWO_32 == n;
  }

  lemma {:induction false} GetsRun(n: nat)
    requires n < TWO_32
    ensures IsRun(Gets(n), GetStates(n))
  {
    if n > 0 {
      GetsRun(n - 1);
      CountsUp(n);
      RunGoesOn(Gets(n - 1), GetStates(n - 1), GotId(n), PoolState({}, n));
    }
  }

  lemma PeakSnoc(events: seq<Event>, e: Event)
    ensures Peak(events + [e]) ==
      if |CheckedOut(events + [e])| > Peak(events) then |CheckedOut(events + [e])| else Peak(events)
  {
    assert (events + [e])[..|events|] == events;
  }

  // Nothing but calls of Get: the ids held are all from 1 on.
  lemma {:induction false} GetsHold(n: nat)
    requires n < TWO_32
    ensures CheckedOut(Gets(n)) == UpTo(n)
  {
    if n > 0 {
      GetsHold(n - 1);
      CheckedOutSnoc(Gets(n - 1), GotId(n));
    }
  }

  lemma {:induction false} GetsPeak(n: nat)
    requires n < TWO_32
    ensures Peak(Gets(n)) == n
  {
    if n > 0 {
      GetsPeak(n - 1);
      PeakSnoc(Gets(n - 1), GotId(n));
      GetsHold(n);
      UpToSize(n);
    }
  }

  // After 2^32 - 1 calls of Get the next one hands out 0.
  lemma WrapIsReached(id: Uint32, t: PoolState)
    requires PoolStep(GetStates(TWO_32 - 1)[TWO_32 - 1], GotId(id), t)
    ensures IsRun(Gets(TWO_32 - 1), GetStates(TWO_32 - 1)) && Peak(Gets(TWO_32 - 1)) < TWO_32
    ensures id == 0
  {
    GetsRun(TWO_32 - 1);
    GetsHold(TWO_32 - 1);
    GetsPeak(TWO_32 - 1);
    UpToSize(TWO_32 - 1);
    GetIsFreshExactly(Gets(TWO_32 - 1), GetStates(TWO_32 - 1), id, t);
  }

  // ---- the class -----------------------------------------------------------------------------

  datatype PutResult = Accepted | Panics

  class IdPool {
    var used: map<Uint32, bool>
    var maxUsed: Uint32

    ghost function State(): PoolState
      reads this
    {
      PoolState((set id | id in used), maxUsed)
    }

    // Absent keys read as false, present ones are true.
    ghost predicate Valid()
      reads this
    {
      forall id :: id in used ==> used[id]
    }

    constructor ()
      ensures Valid() && State() == EMPTY
    {
      used := map[];
      maxUsed := 0;
    }

    // Any key may come first when Go ranges over a map.
    method Get() returns (id: Uint32)
      requires Valid()
      modifies this
      ensures Valid() && PoolStep(old(State()), GotId(id), State())
    {
      if used != map[] {
        var key :| key in used;
        used := used - {key};
        return key;
      }
      maxUsed := (maxUsed + 1) % TWO_32;
      id := maxUsed;
    }

    method Put(id: Uint32) returns (r: PutResult)
      requires Valid()
      modifies this
      ensures Valid() && PoolStep(old(State()), PutId(id, r == Accepted), State())
    {
      if id < 1 || id > maxUsed {
        return Panics;
      }
      if id in used && used[id] {
        return Panics;
      }
      if id == maxUsed {
        maxUsed := id - 1;
        return Accepted;
      }
      used := used[id := true];
      r := Accepted;
    }
  }
}
