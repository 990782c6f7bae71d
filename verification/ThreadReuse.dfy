/**
 How long the thread table lasts. The code never brings its next index back to 0, so every
 creation takes a slot that was never used, and the 65th starts its search outside the table;
 in the table as it is meant to be, slots are used again, under new ids.
 */
module ThreadReuse {
  import opened Common
  import opened Circle
  import opened ThreadTable
  import opened ThreadJoin

  // ---- the code: every slot once -------------------------------------------------------

  // Thread number k is or was in slot k.
  predicate Linear(t: Table) {
    && t.next == t.created <= MAX_THREADS == |t.slots|
    && forall k | 0 <= k < MAX_THREADS && t.slots[k].Some? :: t.slots[k].value.serial == k < t.created
  }

  lemma FirstFreeIsNext(t: Table)
    requires t.next < |t.slots| && t.slots[t.next].None?
    ensures !Full(t.slots) && FreeSlot(t) == t.next
  {
    assert FreeMask(t.slots)[t.next];
    assert Serves(FreeMask(t.slots), t.next, t.next);
    ServesUnique(FreeMask(t.slots), t.next, t.next, FreeSlot(t));
  }

  lemma CreateStaysLinear(t: Table, known: set<nat>, joinable: bool)
    requires Linear(t) && !t.wraps && t.next < MAX_THREADS
    ensures ThreadTable.Create(t, known, joinable).1 == Some(t.next)
    ensures Linear(ThreadTable.Create(t, known, joinable).0) && ThreadTable.Create(t, known, joinable).0.created == t.created + 1
  {
    var u := Reap(t, known);
    assert u.slots[t.next].None?;
    FirstFreeIsNext(u);
  }

  // `u` holds no thread that `t` does not hold in the same slot.
  predicate NoNewThreads(t: Table, u: Table) {
    && (u.next, u.created, u.wraps, |u.slots|) == (t.next, t.created, t.wraps, |t.slots|)
    && forall k | 0 <= k < |u.slots| && u.slots[k].Some? ::
         t.slots[k].Some? && u.slots[k].value.serial == t.slots[k].value.serial
  }

  lemma NoNewAgain(t: Table, u: Table, v: Table)
    requires NoNewThreads(t, u) && NoNewThreads(u, v)
    ensures NoNewThreads(t, v)
  {
  }

  lemma ReapMakesNone(t: Table, known: set<nat>)
    ensures NoNewThreads(t, Reap(t, known))
  {
  }

  lemma DetachMakesNone(t: Table, known: set<nat>, id: nat)
    requires |t.slots| == MAX_THREADS && NamesSlot(id)
    ensures NoNewThreads(t, ThreadTable.Detach(t, known, id).0)
  {
  }

  lemma FinishMakesNone(t: Table, known: set<nat>, k: nat)
    requires k < |t.slots| && InState(t.slots[k], Join)
    ensures NoNewThreads(t, FinishJoin(t, known, k))
  {
  }

  lemma StartMakesNone(s: State, j: nat, known: set<nat>, self: nat, id: nat)
    requires Inv(s) && ThreadJoin.Enabled(s, JoinStart(j, known, self, id))
    ensures NoNewThreads(s.t, StartJoin(s, j, known, self, id).t)
  {
    var u := Reap(s.t, known);
    ReapMakesNone(s.t, known);
    var k := Lookup(u, id);
    hide NoNewThreads, Inv, ReapSlots;
    if k.Some? && InState(u.slots[k.value], Join) {
      FinishMakesNone(u, known, k.value);
      NoNewAgain(s.t, u, FinishJoin(u, known, k.value));
    }
  }

  // Only creation makes a thread.
  lemma StepMakesNone(s: State, e: Event)
    requires Inv(s) && ThreadJoin.Enabled(s, e) && !e.Create?
    ensures NoNewThreads(s.t, Step(s, e).t)
  {
    hide StartJoin, FinishJoin, ThreadTable.Detach;
    match e
    case Detach(known, id) => DetachMakesNone(s.t, known, id);
    case JoinStart(j, known, self, id) => StartMakesNone(s, j, known, self, id);
    case JoinCheck(j, known) =>
      if InState(s.t.slots[s.joiners[j].slot], Join) { FinishMakesNone(s.t, known, s.joiners[j].slot); }
    case _ =>
  }

  lemma StepStaysLinear(s: State, e: Event)
    requires Inv(s) && Linear(s.t) && !s.t.wraps && ThreadJoin.Enabled(s, e)
    ensures Linear(Step(s, e).t) && !Step(s, e).t.wraps
    ensures Step(s, e).t.created == s.t.created + if e.Create? then 1 else 0
  {
    if e.Create? {
      CreateStaysLinear(s.t, e.known, e.joinable);
      hide Linear, Inv;
    } else {
      StepMakesNone(s, e);
      hide Step, Inv;
    }
  }

  function Creations(events: seq<Event>, n: nat): nat
    requires n <= |events|
  {
    if n == 0 then 0 else Creations(events, n - 1) + if events[n - 1].Create? then 1 else 0
  }

  // In every run of the code the next index is the number of creations so far, and so the next
  // creation begins its search inside the table if and only if there were fewer than 64.
  lemma {:induction false} InsideExactly(states: seq<State>, events: seq<Event>, n: nat)
    requires IsRun(states, events) && !states[0].t.wraps && n <= |events|
    ensures Linear(states[n].t) && !states[n].t.wraps && states[n].t.created == Creations(events, n)
    ensures states[n].t.next < MAX_THREADS <==> Creations(events, n) < MAX_THREADS
  {
    if n > 0 {
      InsideExactly(states, events, n - 1);
      JoinsAlwaysRight(states, events, n - 1);
      InvLength(states[n - 1]);
      hide Inv, Step, ThreadJoin.Enabled, Linear, IsInitial;
      StepStaysLinear(states[n - 1], events[n - 1]);
      LinearIsInside(states[n].t);
    }
  }

  lemma InvLength(s: State)
    requires Inv(s)
    ensures |s.t.slots| == MAX_THREADS
  {
  }

  lemma LinearIsInside(t: Table)
    requires Linear(t)
    ensures t.next == t.created
  {
  }

  // ---- a run that uses up the code's table, and reuses slots in the intended one --------

  const ALL: set<nat> := set k: nat | k < MAX_THREADS

  // No thread is left, and one joiner stands ready.
  ghost predicate Quiet(s: State) {
    && Inv(s)
    && (forall k | 0 <= k < MAX_THREADS :: s.t.slots[k].None?)
    && s.t.next == (if s.t.wraps then s.t.created % MAX_THREADS else s.t.created)
    && |s.joiners| == 1 && s.joiners[0].Idle?
  }

  ghost predicate Leads(s: State, e: Event, t: State) {
    Inv(s) && ThreadJoin.Enabled(s, e) && t == Step(s, e)
  }

  // A thread is created, exits and is joined.
  lemma CreateRound(s: State) returns (t: State)
    requires Quiet(s) && s.t.next < MAX_THREADS
    ensures Leads(s, Create(ALL, true), t) && Inv(t)
    ensures t.t.slots[s.t.next].Some? && |t.joiners| == 1 && t.joiners[0].Idle? && t.joined == s.joined
    ensures var info := t.t.slots[s.t.next].value;
      info.state == Running && info.serial == s.t.created
    ensures forall k | 0 <= k < MAX_THREADS && k != s.t.next :: t.t.slots[k].None?
    ensures t.t.created == s.t.created + 1 && t.t.wraps == s.t.wraps
    ensures t.t.next == if s.t.wraps then t.t.created % MAX_THREADS else t.t.created
  {
    var e := Create(ALL, true);
    StepKeepsInv(s, e);
    t := Step(s, e);
    FirstFreeIsNext(Reap(s.t, ALL));
    if s.t.wraps { NextModulo(s.t.created); }
    hide Inv;
  }

  lemma ExitRound(s: State, k: nat, value: int) returns (t: State)
    requires Inv(s) && k < MAX_THREADS && InState(s.t.slots[k], Running)
    requires forall j | 0 <= j < MAX_THREADS && j != k :: s.t.slots[j].None?
    ensures Leads(s, Exit(k, value), t) && Inv(t)
    ensures t.t == s.t.(slots := t.t.slots, toBeJoined := t.t.toBeJoined)
    ensures InState(t.t.slots[k], Join) && t.t.slots[k].value.serial == s.t.slots[k].value.serial
    ensures t.t.slots[k].value.retval == value && t.joiners == s.joiners && t.joined == s.joined
    ensures forall j | 0 <= j < MAX_THREADS && j != k :: t.t.slots[j].None?
  {
    StepKeepsInv(s, Exit(k, value));
    t := Step(s, Exit(k, value));
    hide Inv;
  }

  lemma JoinRound(s: State, k: nat) returns (t: State, e: Event)
    requires Inv(s) && |s.joiners| == 1 && s.joiners[0].Idle? && k < MAX_THREADS && InState(s.t.slots[k], Join)
    requires forall j | 0 <= j < MAX_THREADS && j != k :: s.t.slots[j].None?
    ensures Leads(s, e, t) && Inv(t) && |t.joiners| == 1 && t.joiners[0].Idle? && !e.Create?
    ensures t.joined == s.joined[s.t.slots[k].value.serial := Joined(k, s.t.slots[k].value.retval)]
    ensures t.t.next == s.t.next && t.t.created == s.t.created && t.t.wraps == s.t.wraps
    ensures forall j | 0 <= j < MAX_THREADS :: t.t.slots[j].None?
  {
    var info := s.t.slots[k].value;
    e := JoinStart(0, ALL, info.serial + 1, info.id);
    LookupFindsOwner(s.t, k);
    assert Reap(s.t, ALL).slots == s.t.slots;
    assert Lookup(Reap(s.t, ALL), info.id) == Some(k);
    StepKeepsInv(s, e);
    t := Step(s, e);
    hide Inv;
  }

  // One round: the next thread is created, exits with `value` and is joined.
  lemma Round(s: State, value: int) returns (t: State, u: State, v: State, e: Event)
    requires Quiet(s) && s.t.next < MAX_THREADS
    ensures Leads(s, Create(ALL, true), t) && Leads(t, Exit(s.t.next, value), u) && Leads(u, e, v)
    ensures !e.Create? && Quiet(v) && v.t.created == s.t.created + 1 && v.t.wraps == s.t.wraps
    ensures v.joined == s.joined[s.t.created := Joined(s.t.next, value)]
  {
    t := CreateRound(s);
    u := ExitRound(t, s.t.next, value);
    v, e := JoinRound(u, s.t.next);
  }

  ghost predicate Steps(states: seq<State>, events: seq<Event>) {
    && |states| == |events| + 1 && IsInitial(states[0])
    && forall i | 0 <= i < |events| :: Leads(states[i], events[i], states[i + 1])
  }

  lemma StepsAreRun(states: seq<State>, events: seq<Event>)
    requires Steps(states, events)
    ensures IsRun(states, events)
  {
    forall i | 0 <= i < |events| && |states[i].t.slots| == MAX_THREADS
      ensures ThreadJoin.Enabled(states[i], events[i]) && states[i + 1] == Step(states[i], events[i])
    {
      assert Leads(states[i], events[i], states[i + 1]);
      hide *;
    }
  }

  lemma StepsAppend(states: seq<State>, events: seq<Event>, e: Event, t: State)
    requires Steps(states, events) && Leads(states[|events|], e, t)
    ensures Steps(states + [t], events + [e])
  {
    hide Leads, IsInitial;
  }

  // One more round at the end of a run.
  lemma RoundAppend(states: seq<State>, events: seq<Event>) returns (states': seq<State>, events': seq<Event>)
    requires Steps(states, events)
    requires Quiet(states[|events|]) && states[|events|].t.next < MAX_THREADS
    ensures Steps(states', events') && states'[0] == states[0]
    ensures var s, v := states[|events|], states'[|events'|];
      && Quiet(v) && v.t.created == s.t.created + 1 && v.t.wraps == s.t.wraps
      && v.joined == s.joined[s.t.created := Joined(s.t.next, 0)]
  {
    var s := states[|events|];
    var t, u, v, e := Round(s, 0);
    var make, leave := Create(ALL, true), Exit(s.t.next, 0);
    hide Quiet, Leads, IsInitial;
    StepsAppend(states, events, make, t);
    StepsAppend(states + [t], events + [make], leave, u);
    StepsAppend(states + [t] + [u], events + [make] + [leave], e, v);
    states', events' := states + [t] + [u] + [v], events + [make] + [leave] + [e];
  }

  // Rounds can be repeated as long as the search begins inside the table.
  lemma {:induction false} Rounds(n: nat, wraps: bool) returns (states: seq<State>, events: seq<Event>)
    requires n <= MAX_THREADS || wraps
    ensures Steps(states, events) && states[0].t.wraps == wraps
    ensures Quiet(states[|events|]) && states[|events|].t.created == n && states[|events|].t.wraps == wraps
    ensures forall k | 0 <= k < n :: k in states[|events|].joined && states[|events|].joined[k].slot == k % MAX_THREADS
  {
    if n == 0 {
      var s := FirstState(wraps);
      states, events := [s], [];
    } else {
      states, events := Rounds(n - 1, wraps);
      NextOf(states[|events|], n - 1);
      hide Quiet, Leads, IsInitial;
      states, events := RoundAppend(states, events);
    }
  }

  lemma NextOf(s: State, c: nat)
    requires Quiet(s) && s.t.created == c && (c < MAX_THREADS || s.t.wraps)
    ensures s.t.next == c % MAX_THREADS < MAX_THREADS
  {
  }

  lemma FirstState(wraps: bool) returns (s: State)
    ensures IsInitial(s) && Quiet(s) && s.t.created == 0 && s.t.wraps == wraps
  {
    var slots := seq(MAX_THREADS, i => None);
    s := ThreadJoin.State(Table(slots, 0, 0, 0, 0, COOKIE_INC, 0, wraps), [Idle(NoCall)], map[], map[], {});
    JoinsAlwaysRight([s], [], 0);
  }

  // The code: after 64 threads have come and gone, the table is empty, but the next creation
  // begins its search behind its end.
  lemma SixtyFifthStartsOutside() returns (states: seq<State>, events: seq<Event>)
    ensures IsRun(states, events) && !states[0].t.wraps
    ensures var t := states[|events|].t;
      && t.created == MAX_THREADS == t.next == |t.slots|
      && forall k | 0 <= k < |t.slots| :: t.slots[k].None?
  {
    states, events := Rounds(MAX_THREADS, false);
    StepsAreRun(states, events);
  }

  // The intended table: any number of threads can come and go, and thread n is given the slot
  // of thread n - 64, whose joiner has its value and whose id is dead.
  lemma SlotsAreReused(n: nat) returns (states: seq<State>, events: seq<Event>)
    requires n >= MAX_THREADS
    ensures IsRun(states, events) && states[0].t.wraps
    ensures var s := states[|events|];
      && Inv(s) && s.t.created == n + 1
      && n - MAX_THREADS in s.joined
      && var k := s.joined[n - MAX_THREADS].slot;
         k < |s.t.slots| && s.t.slots[k].Some? && s.t.slots[k].value.serial == n
  {
    states, events := Rounds(n, true);
    var s := states[|events|];
    NextOf(s, n);
    var t := CreateRound(s);
    assert s.t.next < |t.t.slots|;
    hide Inv, Leads, IsInitial, Quiet;
    StepsAppend(states, events, Create(ALL, true), t);
    SameSlot(n);
    states, events := states + [t], events + [Create(ALL, true)];
    StepsAreRun(states, events);
  }

  lemma SameSlot(n: nat)
    requires n >= MAX_THREADS
    ensures (n - MAX_THREADS) % MAX_THREADS == n % MAX_THREADS
  {
  }
}
