/**
 The key destructors run by an exiting thread. Nothing is locked meanwhile: a destructor may
 store values and create or delete keys, and other threads may create and delete keys between
 any two accesses of the exiting thread to the bitmap, the destructor table and its data. A
 `World` says what happens when, so that a claim about every world is a claim about all
 destructors and all interleavings.
 */
module KeyDestructors {
  import opened Common
  import opened ThreadKeys

  // `between(n, i)` is what other threads do just before the i-th access while the exiting
  // thread looks at its n-th key; `during(n)` is what happens while the destructor called
  // there runs. The accesses are: test of the bitmap, test of the destructor, test of the
  // value, reading the value, clearing it, reading the destructor to call it.
  datatype World = World(between: (nat, nat) -> seq<Event>, during: nat -> seq<Event>)

  // The exiting thread's block is not reaped, and only the thread itself stores its values.
  predicate Possible(s: Keys, e: Event, t: nat, byItself: bool) {
    Enabled(s, e) && e != Leave(t) && (e.Store? && e.t == t ==> byItself)
  }

  function Happens(s: Keys, events: seq<Event>, t: nat, byItself: bool): (r: Keys)
    requires WellFormed(s) && Present(s, t)
    ensures WellFormed(r) && Present(r, t) && |r.free| == |s.free|
    decreases |events|
  {
    if events == [] then s
    else if Possible(s, events[0], t, byItself) then Happens(Step(s, events[0]), events[1..], t, byItself)
    else Happens(s, events[1..], t, byItself)
  }

  // Thread t holds a value of key k that a destructor wants.
  predicate Due(s: Keys, t: nat, k: nat)
    requires WellFormed(s)
  {
    Present(s, t) && Allocated(s, k) && s.destructors[k] != NULL && s.data[t].value[k] != NULL
  }

  function Clear(s: Keys, t: nat, k: nat): (r: Keys)
    requires WellFormed(s) && Present(s, t) && k < |s.free|
    ensures WellFormed(r) && Present(r, t) && !Due(r, t, k)
  {
    s.(data := s.data[t := Some(s.data[t].value[k := NULL])])
  }

  // One call: what is called with which value, the tables at the test of the bitmap and those
  // that the destructor starts from, and whether the key was deleted or created in between.
  datatype Call = Call(key: nat, destructor: int, value: int, tested: Keys, given: Keys, disturbed: bool)

  predicate WellCalled(c: Call, t: nat) {
    && WellFormed(c.tested) && Present(c.tested, t) && c.key < |c.tested.free|
    && WellFormed(c.given) && Present(c.given, t) && |c.given.free| == |c.tested.free|
  }

  // The destructor and the value of the key's owner are called, while it still owns the key.
  predicate RightCall(c: Call, t: nat)
    requires WellCalled(c, t)
  {
    && Due(c.tested, t, c.key)
    && c.destructor == c.tested.destructors[c.key]
    && c.value == c.tested.data[t].value[c.key]
    && Allocated(c.given, c.key) && c.given.made[c.key] == c.tested.made[c.key]
  }

  // What holds of every call: the slot is clear, and the call is right exactly if the key was
  // left alone between the first test and the call.
  predicate FairCall(c: Call, t: nat) {
    && WellCalled(c, t)
    && c.given.data[t].value[c.key] == NULL
    && (RightCall(c, t) <==> !c.disturbed)
  }

  predicate FairCalls(calls: seq<Call>, t: nat) {
    forall i | 0 <= i < |calls| :: FairCall(calls[i], t)
  }

  // No value of the thread is due for any of the first n keys.
  predicate Quiet(s: Keys, t: nat, n: nat)
    requires WellFormed(s)
  {
    forall k | 0 <= k < n :: !Due(s, t, k)
  }

  // Other threads cannot make a value due: creating a key plants NULL in it.
  lemma {:induction false} OthersKeepQuiet(s: Keys, events: seq<Event>, t: nat, k: nat)
    requires WellFormed(s) && Present(s, t) && !Due(s, t, k)
    ensures !Due(Happens(s, events, t, false), t, k)
    decreases |events|
  {
    if events != [] {
      if Possible(s, events[0], t, false) {
        OthersKeepQuiet(Step(s, events[0]), events[1..], t, k);
      } else {
        OthersKeepQuiet(s, events[1..], t, k);
      }
    }
  }

  // ---- the life of a key ---------------------------------------------------------------

  predicate Concerns(s: Keys, e: Event, k: nat)
    requires WellFormed(s)
  {
    e == Delete(k) || (e.Create? && LeastFree(s.free) == Some(k))
  }

  // Some of these events deletes or creates key k.
  predicate Disturbs(s: Keys, events: seq<Event>, t: nat, k: nat)
    requires WellFormed(s) && Present(s, t)
    decreases |events|
  {
    events != [] &&
    if Possible(s, events[0], t, false) then
      Concerns(s, events[0], k) || Disturbs(Step(s, events[0]), events[1..], t, k)
    else Disturbs(s, events[1..], t, k)
  }

  // The key has the same owner as before, and the thread the same value.
  predicate SameLife(s: Keys, r: Keys, t: nat, k: nat)
    requires WellFormed(s) && Present(s, t) && WellFormed(r) && Present(r, t)
    requires k < |s.free| == |r.free|
  {
    && r.free[k] == s.free[k] && r.made[k] == s.made[k] && r.destructors[k] == s.destructors[k]
    && r.data[t].value[k] == s.data[t].value[k]
  }

  lemma StepKeepsLife(s: Keys, e: Event, t: nat, k: nat)
    requires WellFormed(s) && Present(s, t) && k < |s.free| && Possible(s, e, t, false)
    ensures Step(s, e).made[k] >= s.made[k]
    ensures !Concerns(s, e, k) ==> SameLife(s, Step(s, e), t, k)
    ensures Concerns(s, e, k) || !Allocated(s, k) ==>
              Step(s, e).made[k] > s.made[k] || !Allocated(Step(s, e), k)
  {
  }

  // Left alone, a key keeps its owner; disturbed, it is free or has a new owner.
  lemma {:induction false} OthersKeepLife(s: Keys, events: seq<Event>, t: nat, k: nat)
    requires WellFormed(s) && Present(s, t) && k < |s.free|
    ensures var r := Happens(s, events, t, false);
      && r.made[k] >= s.made[k]
      && (!Disturbs(s, events, t, k) ==> SameLife(s, r, t, k))
      && (Disturbs(s, events, t, k) || !Allocated(s, k) ==> r.made[k] > s.made[k] || !Allocated(r, k))
    decreases |events|
  {
    if events != [] {
      if Possible(s, events[0], t, false) {
        StepKeepsLife(s, events[0], t, k);
        OthersKeepLife(Step(s, events[0]), events[1..], t, k);
        hide Step, Concerns, Possible;
      } else {
        OthersKeepLife(s, events[1..], t, k);
      }
    }
  }

  // A slot of the thread that is clear stays so while only others act.
  lemma {:induction false} OthersKeepClear(s: Keys, events: seq<Event>, t: nat, k: nat)
    requires WellFormed(s) && Present(s, t) && k < |s.free| && s.data[t].value[k] == NULL
    ensures Happens(s, events, t, false).data[t].value[k] == NULL
    decreases |events|
  {
    if events != [] {
      if Possible(s, events[0], t, false) {
        OthersKeepClear(Step(s, events[0]), events[1..], t, k);
      } else {
        OthersKeepClear(s, events[1..], t, k);
      }
    }
  }

  // ---- looking at one key --------------------------------------------------------------

  function Others(s: Keys, t: nat, n: nat, i: nat, w: World): (r: Keys)
    requires WellFormed(s) && Present(s, t)
    ensures WellFormed(r) && Present(r, t) && |r.free| == |s.free|
  {
    Happens(s, w.between(n, i), t, false)
  }

  // The states right before the accesses, once the three tests were passed.
  datatype Looked = Looked(a: Keys, b: Keys, c: Keys, d: Keys, e: Keys, f: Keys)

  predicate Usable(s: Keys, t: nat, keys: nat) {
    WellFormed(s) && Present(s, t) && |s.free| == keys
  }

  predicate AllUsable(l: Looked, t: nat, keys: nat) {
    && Usable(l.a, t, keys) && Usable(l.b, t, keys) && Usable(l.c, t, keys)
    && Usable(l.d, t, keys) && Usable(l.e, t, keys) && Usable(l.f, t, keys)
  }

  function LookAt(s: Keys, t: nat, k: nat, n: nat, w: World): (l: Looked)
    requires WellFormed(s) && Present(s, t) && k < |s.free|
    ensures AllUsable(l, t, |s.free|)
  {
    var a := Others(s, t, n, 0, w);
    var b := Others(a, t, n, 1, w);
    var c := Others(b, t, n, 2, w);
    var d := Others(c, t, n, 3, w);
    var e := Others(d, t, n, 4, w);
    Looked(a, b, c, d, e, Others(Clear(e, t, k), t, n, 5, w))
  }

  predicate Disturbed(l: Looked, t: nat, k: nat, n: nat, w: World)
    requires k < |l.a.free| && AllUsable(l, t, |l.a.free|)
  {
    || Disturbs(l.a, w.between(n, 1), t, k) || Disturbs(l.b, w.between(n, 2), t, k)
    || Disturbs(l.c, w.between(n, 3), t, k) || Disturbs(l.d, w.between(n, 4), t, k)
    || Disturbs(Clear(l.e, t, k), w.between(n, 5), t, k)
  }

  function CallOf(l: Looked, t: nat, k: nat, n: nat, w: World): Call
    requires k < |l.a.free| && AllUsable(l, t, |l.a.free|)
  {
    Call(k, l.f.destructors[k], l.d.data[t].value[k], l.a, l.f, Disturbed(l, t, k, n, w))
  }

  // Every test and access, with whatever happens around them.
  function Look(s: Keys, t: nat, k: nat, n: nat, w: World): (r: (Keys, seq<Call>))
    requires WellFormed(s) && Present(s, t) && k < |s.free|
    ensures WellFormed(r.0) && Present(r.0, t) && |r.0.free| == |s.free| && |r.1| <= 1
  {
    var l := LookAt(s, t, k, n, w);
    if !Allocated(l.a, k) then (l.a, [])
    else if l.b.destructors[k] == NULL then (l.b, [])
    else if l.c.data[t].value[k] == NULL then (l.c, [])
    else (Happens(l.f, w.during(n), t, true), [CallOf(l, t, k, n, w)])
  }

  lemma ClearKeepsLife(s: Keys, t: nat, k: nat)
    requires WellFormed(s) && Present(s, t) && k < |s.free|
    ensures var r := Clear(s, t, k);
      r.free == s.free && r.made == s.made && r.destructors == s.destructors && r.data[t].value[k] == NULL
  {
  }

  // A call is right if and only if nobody deletes or creates the key between the test of the
  // bitmap and the call.
  lemma CallIsFair(s: Keys, t: nat, k: nat, n: nat, w: World)
    requires WellFormed(s) && Present(s, t) && k < |s.free|
    ensures FairCalls(Look(s, t, k, n, w).1, t)
  {
    var l := LookAt(s, t, k, n, w);
    OthersKeepLife(l.a, w.between(n, 1), t, k);
    OthersKeepLife(l.b, w.between(n, 2), t, k);
    OthersKeepLife(l.c, w.between(n, 3), t, k);
    OthersKeepLife(l.d, w.between(n, 4), t, k);
    ClearKeepsLife(l.e, t, k);
    OthersKeepLife(Clear(l.e, t, k), w.between(n, 5), t, k);
    OthersKeepClear(Clear(l.e, t, k), w.between(n, 5), t, k);
    hide Happens, Clear, Disturbs;
  }

  // If no destructor is called, no value is due for this key or those looked at before.
  lemma LookLeavesQuiet(s: Keys, t: nat, k: nat, n: nat, w: World)
    requires WellFormed(s) && Present(s, t) && k < |s.free| && Quiet(s, t, k)
    ensures Look(s, t, k, n, w).1 == [] ==> Quiet(Look(s, t, k, n, w).0, t, k + 1)
  {
    var l := LookAt(s, t, k, n, w);
    OthersKeepAllQuiet(s, w.between(n, 0), t, k);
    OthersKeepAllQuiet(l.a, w.between(n, 1), t, k);
    OthersKeepAllQuiet(l.b, w.between(n, 2), t, k);
    hide Happens, Clear, CallOf;
  }

  lemma OthersKeepAllQuiet(s: Keys, events: seq<Event>, t: nat, k: nat)
    requires WellFormed(s) && Present(s, t) && Quiet(s, t, k)
    ensures Quiet(Happens(s, events, t, false), t, k)
  {
    forall j | 0 <= j < k ensures !Due(Happens(s, events, t, false), t, j) {
      OthersKeepQuiet(s, events, t, j);
    }
  }

  // The schedule in which a null destructor is called: after the three tests another thread
  // deletes the key and creates it anew, without a destructor.
  lemma NullIsCalled(s: Keys, t: nat, k: nat, n: nat)
    requires WellFormed(s) && Due(s, t, k) && forall j | 0 <= j < k :: Allocated(s, j)
    ensures var w := World((m, i) => if i == 3 then [Delete(k), Create(NULL)] else [], m => []);
      var calls := Look(s, t, k, n, w).1;
      |calls| == 1 && calls[0].destructor == NULL && calls[0].value == NULL && calls[0].disturbed
  {
    var w := World((m, i) => if i == 3 then [Delete(k), Create(NULL)] else [], m => []);
    var r := DeleteKey(s, k);
    assert r.free[k];
    forall j | 0 <= j < k ensures !r.free[j] {
      assert Allocated(s, j);
    }
    assert LeastFree(r.free) == Some(k);
    assert Happens(s, [Delete(k), Create(NULL)], t, false) == Happens(r, [Create(NULL)], t, false);
    var u := CreateKey(r, NULL).0;
    assert Happens(r, [Create(NULL)], t, false) == Happens(u, [], t, false) == u;
    hide Due;
  }

  // ---- the loop ------------------------------------------------------------------------

  // The world in which key k stays due: nobody deletes it, nobody creates it anew, and every
  // destructor that finds it cleared stores a value again.
  ghost predicate Restores(w: World, t: nat, k: nat) {
    && (forall n: nat, i: nat, s: Keys | WellFormed(s) && Due(s, t, k) :: Due(Others(s, t, n, i, w), t, k))
    && (forall n: nat, i: nat, s: Keys | WellFormed(s) && Wanted(s, t, k) :: Wanted(Others(s, t, n, i, w), t, k))
    && (forall n: nat, s: Keys | WellFormed(s) && Wanted(s, t, k) :: Due(Happens(s, w.during(n), t, true), t, k))
  }

  predicate Wanted(s: Keys, t: nat, k: nat)
    requires WellFormed(s)
  {
    Present(s, t) && Allocated(s, k) && s.destructors[k] != NULL
  }

  // There is such a world for every key: the destructor stores a value and nobody else acts.
  lemma StoringAgainRestores(t: nat, k: nat, value: int)
    requires value != NULL
    ensures Restores(World((_, _) => [], _ => [Store(t, k, value)]), t, k)
  {
    var w := World((_, _) => [], _ => [Store(t, k, value)]);
    forall n: nat, s: Keys | WellFormed(s) && Wanted(s, t, k)
      ensures Due(Happens(s, w.during(n), t, true), t, k)
    {
      StoreMakesDue(s, t, k, value);
    }
  }

  lemma StoreMakesDue(s: Keys, t: nat, k: nat, value: int)
    requires WellFormed(s) && Wanted(s, t, k) && value != NULL
    ensures Due(Happens(s, [Store(t, k, value)], t, true), t, k)
  {
    var e := Store(t, k, value);
    assert Happens(s, [e], t, true) == Happens(Step(s, e), [], t, true);
  }

  lemma ClearKeepsDue(s: Keys, t: nat, k: nat, j: nat)
    requires WellFormed(s) && Present(s, t) && k < |s.free| && Due(s, t, j)
    ensures j != k ==> Due(Clear(s, t, k), t, j)
    ensures Wanted(Clear(s, t, k), t, j)
  {
  }

  // The steps of Look keep key j due, and call its destructor when it is j's turn.
  lemma LookRestores(s: Keys, t: nat, k: nat, n: nat, w: World, j: nat)
    requires WellFormed(s) && Present(s, t) && k < |s.free| && Restores(w, t, j) && Due(s, t, j)
    ensures Due(Look(s, t, k, n, w).0, t, j)
    ensures j == k ==> Look(s, t, k, n, w).1 != []
  {
    var l := LookAt(s, t, k, n, w);
    assert Due(l.a, t, j) && Due(l.b, t, j) && Due(l.c, t, j) && Due(l.d, t, j) && Due(l.e, t, j);
    ClearKeepsDue(l.e, t, k, j);
    assert Wanted(l.f, t, j);
    hide Happens, Clear, CallOf, Others;
  }

  lemma NoneSeenYet(s: Keys, t: nat)
    requires WellFormed(s)
    ensures Quiet(s, t, 0) && FairCalls([], t)
  {
  }

  lemma MoreCalls(calls: seq<Call>, more: seq<Call>, t: nat)
    requires FairCalls(calls, t) && FairCalls(more, t)
    ensures FairCalls(calls + more, t)
  {
  }

  lemma DueIsAllocated(s: Keys, t: nat, k: nat)
    requires WellFormed(s)
    ensures Due(s, t, k) ==> k < |s.free|
  {
  }

  // The body of the inner loop, access by access.
  method LookAtKey(s0: Keys, t: nat, key: nat, n: nat, w: World) returns (s: Keys, calls: seq<Call>)
    requires WellFormed(s0) && Present(s0, t) && key < |s0.free|
    ensures (s, calls) == Look(s0, t, key, n, w)
  {
    hide Happens, Clear, Due;
    var disturbed := Disturbed(LookAt(s0, t, key, n, w), t, key, n, w);
    s, calls := Happens(s0, w.between(n, 0), t, false), [];
    if s.free[key] { return; }
    var tested := s;
    s := Happens(s, w.between(n, 1), t, false);
    if s.destructors[key] == NULL { return; }
    s := Happens(s, w.between(n, 2), t, false);
    if s.data[t].value[key] == NULL { return; }
    s := Happens(s, w.between(n, 3), t, false);
    var value := s.data[t].value[key];
    s := Happens(s, w.between(n, 4), t, false);
    s := Clear(s, t, key);
    s := Happens(s, w.between(n, 5), t, false);
    var destructor := s.destructors[key];
    calls := [Call(key, destructor, value, tested, s, disturbed)];
    s := Happens(s, w.during(n), t, true);
  }

  // The loop of pthread_exit. At most `iterations` + 1 passes run; stopping earlier means that
  // no value is left for a destructor; every call is fair; and the bound is reached when a
  // destructor stores its value again.
  method RunDestructors(s0: Keys, t: nat, iterations: nat, w: World)
    returns (s: Keys, passes: nat, calls: seq<Call>)
    requires WellFormed(s0) && Present(s0, t)
    ensures WellFormed(s) && Present(s, t)
    ensures 1 <= passes <= iterations + 1
    ensures passes <= iterations ==> Quiet(s, t, |s.free|)
    ensures FairCalls(calls, t) && |calls| <= passes * |s0.free|
    ensures (exists k: nat :: Restores(w, t, k) && Due(s0, t, k)) ==> passes == iterations + 1
  {
    hide Quiet, FairCalls, Restores, Look;
    s, passes, calls := s0, 0, [];
    var n := 0;
    var called := true;
    NoneSeenYet(s, t);
    ghost var stuck := exists k: nat :: Restores(w, t, k) && Due(s0, t, k);
    ghost var j := if stuck then (var k: nat :| Restores(w, t, k) && Due(s0, t, k); k) else 0;
    while called && passes <= iterations
      invariant WellFormed(s) && Present(s, t) && |s.free| == |s0.free|
      invariant passes <= iterations + 1 && (passes == 0 ==> called)
      invariant !called ==> Quiet(s, t, |s.free|)
      invariant FairCalls(calls, t) && |calls| <= passes * |s0.free|
      invariant stuck ==> called && Restores(w, t, j) && Due(s, t, j)
      decreases iterations + 1 - passes
    {
      called := false;
      var key, bound := 0, passes * |s0.free|;
      NoneSeenYet(s, t);
      while key < |s.free|
        invariant key <= |s.free| == |s0.free| && WellFormed(s) && Present(s, t)
        invariant !called ==> Quiet(s, t, key)
        invariant FairCalls(calls, t) && |calls| <= bound + key
        invariant stuck ==> Restores(w, t, j) && Due(s, t, j) && (j < key ==> called)
      {
        CallIsFair(s, t, key, n, w);
        if !called { LookLeavesQuiet(s, t, key, n, w); }
        if stuck { LookRestores(s, t, key, n, w, j); }
        var after, more := LookAtKey(s, t, key, n, w);
        MoreCalls(calls, more, t);
        s, calls, n := after, calls + more, n + 1;
        called := called || more != [];
        key := key + 1;
      }
      DueIsAllocated(s, t, j);
      passes := passes + 1;
    }
  }
}
