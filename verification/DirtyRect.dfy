/**
 The dirty rectangle of the LCD driver: producers merge damaged rectangles into one bounding
 box clipped to the screen, and the box is flushed either by the caller or by a worker thread
 that sleeps on a semaphore.
 */
module DirtyRect {

  // Half-open, as usual.
  datatype Rect = Rect(left: int, top: int, right: int, bottom: int)

  // The driver's own form of a damaged area.
  datatype Area = Area(x: int, y: int, w: int, h: int)

  const NO_RECT := Rect(0, 0, 0, 0)

  function ToRect(a: Area): Rect {
    Rect(a.x, a.y, a.x + a.w, a.y + a.h)
  }

  // The pixels of an area.
  predicate InArea(a: Area, x: int, y: int) {
    a.x <= x < a.x + a.w && a.y <= y < a.y + a.h
  }

  // The area's edges lie within the rectangle.
  predicate AreaInside(a: Area, r: Rect) {
    r.left <= a.x && a.x + a.w <= r.right && r.top <= a.y && a.y + a.h <= r.bottom
  }

  predicate IsEmpty(r: Rect) {
    r.left >= r.right || r.top >= r.bottom
  }

  predicate Covers(r: Rect, x: int, y: int) {
    r.left <= x < r.right && r.top <= y < r.bottom
  }

  predicate Inside(a: Rect, b: Rect) {
    b.left <= a.left && a.right <= b.right && b.top <= a.top && a.bottom <= b.bottom
  }

  function Min(a: int, b: int): int { if a <= b then a else b }

  function Max(a: int, b: int): int { if a >= b then a else b }

  function Bound(a: Rect, b: Rect): Rect {
    Rect(Min(a.left, b.left), Min(a.top, b.top), Max(a.right, b.right), Max(a.bottom, b.bottom))
  }

  function Intersect(a: Rect, b: Rect): Rect {
    Rect(Max(a.left, b.left), Max(a.top, b.top), Min(a.right, b.right), Min(a.bottom, b.bottom))
  }

  // ---- merging -------------------------------------------------------------------------

  function MergeOne(bound: Rect, a: Area): Rect {
    if IsEmpty(bound) then ToRect(a) else Bound(bound, ToRect(a))
  }

  function Merge(bound: Rect, areas: seq<Area>): Rect {
    if areas == [] then bound
    else MergeOne(Merge(bound, areas[..|areas| - 1]), areas[|areas| - 1])
  }

  // The merged box covers the old box and every area.
  lemma {:induction false} MergeCovers(bound: Rect, areas: seq<Area>, x: int, y: int)
    requires Covers(bound, x, y) || exists i :: 0 <= i < |areas| && InArea(areas[i], x, y)
    ensures Covers(Merge(bound, areas), x, y)
  {
    if areas != [] {
      var init, last := areas[..|areas| - 1], areas[|areas| - 1];
      if !InArea(last, x, y) {
        assert Covers(bound, x, y) || exists i :: 0 <= i < |init| && InArea(init[i], x, y);
        MergeCovers(bound, init, x, y);
      }
    }
  }

  // It is the least such box: it stays inside every rectangle that holds all of them.
  lemma {:induction false} MergeIsLeast(bound: Rect, areas: seq<Area>, all: Rect)
    requires Inside(bound, all) || (IsEmpty(bound) && areas != [])
    requires forall i | 0 <= i < |areas| :: AreaInside(areas[i], all)
    ensures Inside(Merge(bound, areas), all)
  {
    if |areas| == 1 {
      assert Merge(bound, areas[..0]) == bound;
    } else if areas != [] {
      MergeIsLeast(bound, areas[..|areas| - 1], all);
    }
  }

  datatype Damage = Damage(rcDirty: Rect, dirty: bool)

  function Update(d: Damage, areas: seq<Area>, screen: Rect): Damage {
    var bound := Merge(d.rcDirty, areas);
    if !IsEmpty(bound) && !IsEmpty(Intersect(bound, screen)) then Damage(Intersect(bound, screen), true)
    else d
  }

  // The flag says whether the box is non-empty, and the box stays on the screen.
  predicate Coherent(d: Damage, screen: Rect) {
    && (d.dirty <==> !IsEmpty(d.rcDirty))
    && (d.dirty ==> Inside(d.rcDirty, screen))
  }

  // Every on-screen pixel that was dirty or was submitted is dirty afterwards.
  lemma UpdateCovers(d: Damage, areas: seq<Area>, screen: Rect, x: int, y: int)
    requires Coherent(d, screen) && Covers(screen, x, y)
    requires Covers(d.rcDirty, x, y) || exists i :: 0 <= i < |areas| && InArea(areas[i], x, y)
    ensures Covers(Update(d, areas, screen).rcDirty, x, y)
  {
    MergeCovers(d.rcDirty, areas, x, y);
    assert Covers(Intersect(Merge(d.rcDirty, areas), screen), x, y);
  }

  lemma IntersectIs(a: Rect, b: Rect, x: int, y: int)
    ensures Covers(Intersect(a, b), x, y) <==> Covers(a, x, y) && Covers(b, x, y)
  {
  }

  // Nothing else becomes dirty without need: what is dirty afterwards lies in every rectangle
  // that holds the old damage and the areas, and on the screen.
  lemma UpdateIsLeast(d: Damage, areas: seq<Area>, screen: Rect, all: Rect, x: int, y: int)
    requires Coherent(d, screen) && Covers(Update(d, areas, screen).rcDirty, x, y)
    requires d.dirty ==> Inside(d.rcDirty, all)
    requires forall i | 0 <= i < |areas| :: AreaInside(areas[i], all)
    ensures Covers(all, x, y) && Covers(screen, x, y)
  {
    if areas == [] {
      assert Merge(d.rcDirty, areas) == d.rcDirty;
    } else {
      MergeIsLeast(d.rcDirty, areas, all);
    }
    IntersectIs(Merge(d.rcDirty, areas), screen, x, y);
    hide Merge, Intersect;
  }

  lemma UpdateKeepsCoherent(d: Damage, areas: seq<Area>, screen: Rect)
    requires Coherent(d, screen)
    ensures Coherent(Update(d, areas, screen), screen)
  {
  }

  class Updater {
    var rcDirty: Rect
    var dirty: bool
    const screen: Rect

    ghost function Now(): Damage
      reads this
    {
      Damage(rcDirty, dirty)
    }

    constructor (screen: Rect)
      ensures this.screen == screen && Now() == Damage(NO_RECT, false) && Coherent(Now(), screen)
    {
      this.screen := screen;
      rcDirty, dirty := NO_RECT, false;
    }

    // COMMLCD_UpdateRects_Sync, and the critical section of its asynchronous twin.
    method UpdateRects(areas: seq<Area>)
      requires Coherent(Now(), screen)
      modifies this
      ensures Now() == Update(old(Now()), areas, screen) && Coherent(Now(), screen)
    {
      UpdateKeepsCoherent(Now(), areas, screen);
      var bound := rcDirty;
      for i := 0 to |areas|
        invariant bound == Merge(rcDirty, areas[..i])
      {
        var rc := ToRect(areas[i]);
        assert areas[..i + 1][..i] == areas[..i];
        if IsEmpty(bound) {
          bound := rc;
        } else {
          bound := Bound(bound, rc);
        }
      }
      assert areas[..|areas|] == areas;
      if !IsEmpty(bound) {
        bound := Intersect(bound, screen);
        if !IsEmpty(bound) {
          rcDirty, dirty := bound, true;
        }
      }
    }

    // COMMLCD_SyncUpdate_Sync; `flushed` is what the hardware is told to update.
    method SyncUpdate() returns (ok: bool, flushed: Rect)
      requires Coherent(Now(), screen)
      modifies this
      ensures ok == old(dirty) && Now() == Damage(if ok then NO_RECT else old(rcDirty), false)
      ensures ok ==> flushed == old(rcDirty)
      ensures Coherent(Now(), screen)
    {
      ok, flushed := !IsEmpty(rcDirty), rcDirty;
      if ok {
        rcDirty, dirty := NO_RECT, false;
      }
    }

    // The critical section of the worker thread.
    method WorkerFlush() returns (ok: bool, flushed: Rect)
      requires Coherent(Now(), screen)
      modifies this
      ensures ok == old(dirty) && Now() == Damage(if ok then NO_RECT else old(rcDirty), false)
      ensures ok ==> flushed == old(rcDirty)
      ensures Coherent(Now(), screen)
    {
      ok, flushed := dirty, rcDirty;
      if dirty {
        rcDirty, dirty := NO_RECT, false;
      }
    }
  }

  // ---- producers and the worker thread --------------------------------------------------

  // The worker is at sem_wait, or between sem_wait and the lock.
  datatype Worker = Asleep | Awake

  // What has happened, for the statement that nothing is lost.
  datatype Fact = Submitted(area: Area) | Requested | Woken | Flushed(rect: Rect)

  datatype State = State(now: Damage, sem: nat, worker: Worker, log: seq<Fact>)

  datatype Event = Submit(areas: seq<Area>) | Request | Wake | Flush

  predicate Enabled(s: State, e: Event) {
    match e
    case Submit(_) => true
    case Request => true
    case Wake => s.worker == Asleep && s.sem > 0
    case Flush => s.worker == Awake
  }

  function Facts(areas: seq<Area>): (r: seq<Fact>)
    ensures |r| == |areas| && forall i | 0 <= i < |r| :: r[i] == Submitted(areas[i])
  {
    seq(|areas|, i requires 0 <= i < |areas| => Submitted(areas[i]))
  }

  function Step(s: State, e: Event, screen: Rect): State
    requires Enabled(s, e)
  {
    match e
    case Submit(areas) => s.(now := Update(s.now, areas, screen), log := s.log + Facts(areas))
    case Request => if s.now.dirty then s.(sem := s.sem + 1, log := s.log + [Requested]) else s
    case Wake => s.(sem := s.sem - 1, worker := Awake, log := s.log + [Woken])
    case Flush =>
      if s.now.dirty then
        State(Damage(NO_RECT, false), s.sem, Asleep, s.log + [Flushed(s.now.rcDirty)])
      else s.(worker := Asleep)
  }

  predicate Handled(s: State, k: nat, x: int, y: int) {
    || Covers(s.now.rcDirty, x, y)
    || exists j :: k < j < |s.log| && s.log[j].Flushed? && Covers(s.log[j].rect, x, y)
  }

  ghost predicate NothingLost(s: State, screen: Rect) {
    forall k: nat, x, y | k < |s.log| && s.log[k].Submitted? && InArea(s.log[k].area, x, y)
      && Covers(screen, x, y) :: Handled(s, k, x, y)
  }

  // A request that no flush has followed yet will be served.
  predicate RequestsPending(s: State) {
    forall k | 0 <= k < |s.log| && s.log[k].Requested? && (forall j | k < j < |s.log| :: !s.log[j].Flushed?) ::
      s.now.dirty && (s.sem > 0 || s.worker == Awake)
  }

  ghost predicate Inv(s: State, screen: Rect) {
    Coherent(s.now, screen) && NothingLost(s, screen) && RequestsPending(s)
  }

  lemma HandledStays(s: State, e: Event, screen: Rect, k: nat, x: int, y: int)
    requires Coherent(s.now, screen) && Enabled(s, e) && Covers(screen, x, y) && Handled(s, k, x, y) && k < |s.log|
    ensures Handled(Step(s, e, screen), k, x, y)
  {
    var s' := Step(s, e, screen);
    if Covers(s.now.rcDirty, x, y) {
      if e.Submit? {
        UpdateCovers(s.now, e.areas, screen, x, y);
      } else if e.Flush? {
        assert s'.log[|s.log|] == Flushed(s.now.rcDirty);
      }
    } else {
      var j :| k < j < |s.log| && s.log[j].Flushed? && Covers(s.log[j].rect, x, y);
      assert s'.log[j] == s.log[j];
    }
  }

  lemma StepLosesNothing(s: State, e: Event, screen: Rect)
    requires Coherent(s.now, screen) && NothingLost(s, screen) && Enabled(s, e)
    ensures NothingLost(Step(s, e, screen), screen)
  {
    var s' := Step(s, e, screen);
    forall k: nat, x, y | k < |s'.log| && s'.log[k].Submitted? && InArea(s'.log[k].area, x, y)
      && Covers(screen, x, y) ensures Handled(s', k, x, y)
    {
      if k < |s.log| {
        assert s.log[k] == s'.log[k];
        HandledStays(s, e, screen, k, x, y);
      } else {
        assert e.Submit? && s'.log[k] == Submitted(e.areas[k - |s.log|]);
        UpdateCovers(s.now, e.areas, screen, x, y);
      }
    }
  }

  lemma StepKeepsRequests(s: State, e: Event, screen: Rect)
    requires RequestsPending(s) && Enabled(s, e)
    requires Coherent(s.now, screen)
    ensures RequestsPending(Step(s, e, screen))
  {
    var s' := Step(s, e, screen);
    assert e.Flush? && s.now.dirty ==> s'.log[|s.log|].Flushed?;
    forall k | 0 <= k < |s'.log| && s'.log[k].Requested? && (forall j | k < j < |s'.log| :: !s'.log[j].Flushed?)
      ensures s'.now.dirty && (s'.sem > 0 || s'.worker == Awake)
    {
      if k < |s.log| {
        assert forall j | k < j < |s.log| :: s.log[j] == s'.log[j];
      }
    }
  }

  ghost predicate IsRun(states: seq<State>, events: seq<Event>, screen: Rect) {
    && |states| == |events| + 1
    && states[0] == State(Damage(NO_RECT, false), 0, Asleep, [])
    && forall i | 0 <= i < |events| :: Enabled(states[i], events[i]) && states[i + 1] == Step(states[i], events[i], screen)
  }

  // In every interleaving of producers, requesters and the worker: the flag agrees with the
  // box, every on-screen pixel ever submitted is in the box or was flushed afterwards, and a
  // request not yet followed by a flush finds the semaphore positive or the worker awake.
  lemma {:induction false} NoDamageLost(states: seq<State>, events: seq<Event>, screen: Rect, n: nat)
    requires IsRun(states, events, screen) && n <= |events|
    ensures Inv(states[n], screen)
  {
    if n > 0 {
      hide NothingLost, RequestsPending, Step, Coherent;
      NoDamageLost(states, events, screen, n - 1);
      StepLosesNothing(states[n - 1], events[n - 1], screen);
      StepKeepsRequests(states[n - 1], events[n - 1], screen);
      StepKeepsCoherent(states[n - 1], events[n - 1], screen);
    }
  }

  // The worker's critical section leaves nothing dirty, and the worker goes back to sleep.
  lemma WorkerGoesBack(s: State, screen: Rect)
    requires s.worker == Awake
    ensures var t := Step(s, Flush, screen); !t.now.dirty && t.worker == Asleep && t.sem == s.sem
    ensures var t := Step(s, Flush, screen);
      t.log == s.log + if s.now.dirty then [Flushed(s.now.rcDirty)] else []
  {
  }

  function Count(log: seq<Fact>, fact: Fact): nat {
    if log == [] then 0 else Count(log[..|log| - 1], fact) + if log[|log| - 1] == fact then 1 else 0
  }

  lemma CountOne(log: seq<Fact>, f: Fact, fact: Fact)
    ensures Count(log + [f], fact) == Count(log, fact) + if f == fact then 1 else 0
  {
    assert (log + [f])[..|log|] == log;
  }

  lemma {:induction false} CountFacts(log: seq<Fact>, areas: seq<Area>, fact: Fact)
    requires !fact.Submitted?
    ensures Count(log + Facts(areas), fact) == Count(log, fact)
  {
    if areas == [] {
      assert log + Facts(areas) == log;
    } else {
      var n := |areas| - 1;
      CountFacts(log, areas[..n], fact);
      assert log + Facts(areas) == log + Facts(areas[..n]) + [Submitted(areas[n])];
      CountOne(log + Facts(areas[..n]), Submitted(areas[n]), fact);
    }
  }

  // A request succeeds, and posts, exactly when there is damage; in every run each post wakes
  // the worker once or is still to do so, and every submitted area is on record.
  lemma {:induction false} EveryRequestWakesOnce(states: seq<State>, events: seq<Event>, screen: Rect, n: nat)
    requires IsRun(states, events, screen) && n <= |events|
    ensures Count(states[n].log, Requested) == states[n].sem + Count(states[n].log, Woken)
    ensures n > 0 && events[n - 1].Request? ==>
              states[n].log == states[n - 1].log + (if states[n - 1].now.dirty then [Requested] else [])
    ensures n > 0 && events[n - 1].Submit? ==> states[n].log == states[n - 1].log + Facts(events[n - 1].areas)
  {
    if n > 0 {
      EveryRequestWakesOnce(states, events, screen, n - 1);
      var s, e := states[n - 1], events[n - 1];
      if e.Submit? {
        CountFacts(s.log, e.areas, Requested);
        CountFacts(s.log, e.areas, Woken);
      } else {
        var f := if e.Request? then Requested else if e.Wake? then Woken else Flushed(s.now.rcDirty);
        CountOne(s.log, f, Requested);
        CountOne(s.log, f, Woken);
      }
      hide Count, Update, Facts;
    } else {
      assert Count([], Requested) == Count([], Woken) == 0;
    }
  }

  lemma StepKeepsCoherent(s: State, e: Event, screen: Rect)
    requires Coherent(s.now, screen) && Enabled(s, e)
    ensures Coherent(Step(s, e, screen).now, screen)
  {
  }
}
