/**
 Creating, exiting, detaching and joining threads in every interleaving. A join is three kinds
 of step: the locked start, taking the joiner semaphore without the lock, and the locked check
 after waking up. At most one thread joins a given thread.
 */
module ThreadJoin {
  import opened Common
  import opened ThreadTable

  // A joiner at semTake, or between semTake and the lock; it holds a pointer to the control
  // block of thread `serial` in `slot`.
  datatype Joiner =
    | Idle(last: JoinResult)
    | AtTake(slot: nat, serial: nat)
    | AtCheck(slot: nat, serial: nat)

  // What the joiner's latest call returned: 0 with the thread's value, or an error.
  datatype JoinResult = NoCall | Success(value: int) | Esrch | Edeadlk | Einval

  datatype Joined = Joined(slot: nat, value: int)

  datatype State = State(
    t: Table,
    joiners: seq<Joiner>,
    exits: map<nat, int>,         // the value each thread gave to its exit
    joined: map<nat, Joined>,     // the value each successful join handed back
    detached: set<nat>)           // threads detached at some time

  // `known` are the slots whose task status the reaper can read at that time.
  datatype Event =
    | Create(known: set<nat>, joinable: bool)
    | Exit(k: nat, value: int)
    | Detach(known: set<nat>, id: nat)
    | JoinStart(j: nat, known: set<nat>, self: nat, id: nat)
    | JoinTake(j: nat)
    | JoinCheck(j: nat, known: set<nat>)

  // The control block that the pointer was taken to is still in the table.
  predicate Alive(t: Table, slot: nat, serial: nat) {
    slot < |t.slots| && t.slots[slot].Some? && t.slots[slot].value.serial == serial
  }

  predicate Waits(joiner: Joiner, serial: nat) {
    !joiner.Idle? && joiner.serial == serial
  }

  predicate Enabled(s: State, e: Event)
    requires |s.t.slots| == MAX_THREADS
  {
    match e
    case Create(_, _) => s.t.next < MAX_THREADS
    case Exit(k, _) => Live(s.t, k)
    case Detach(_, id) =>
      && NamesSlot(id)
      && var k := Lookup(s.t, id); (k.Some? ==> !InState(s.t.slots[k.value], Join))
    case JoinStart(j, known, _, id) =>
      && j < |s.joiners| && s.joiners[j].Idle? && NamesSlot(id)
      && var k := Lookup(Reap(s.t, known), id);
         (k.Some? ==> forall i | 0 <= i < |s.joiners| :: !Waits(s.joiners[i], s.t.slots[k.value].value.serial))
    case JoinTake(j) =>
      && j < |s.joiners| && s.joiners[j].AtTake?
      && Alive(s.t, s.joiners[j].slot, s.joiners[j].serial)
      && s.t.slots[s.joiners[j].slot].value.joinerFull
    case JoinCheck(j, _) =>
      && j < |s.joiners| && s.joiners[j].AtCheck?
      && Alive(s.t, s.joiners[j].slot, s.joiners[j].serial)
  }

  // Handing back the value and retiring the joinee in slot `k`.
  function Finish(s: State, j: nat, known: set<nat>, k: nat): State
    requires j < |s.joiners| && k < |s.t.slots| && InState(s.t.slots[k], Join)
  {
    var info := s.t.slots[k].value;
    s.(t := FinishJoin(s.t, known, k), joiners := s.joiners[j := Idle(Success(info.retval))],
       joined := s.joined[info.serial := Joined(k, info.retval)])
  }

  function StartJoin(s: State, j: nat, known: set<nat>, self: nat, id: nat): State
    requires |s.t.slots| == MAX_THREADS && Enabled(s, JoinStart(j, known, self, id))
  {
    var u := s.(t := Reap(s.t, known));
    match Lookup(u.t, id)
    case None => u.(joiners := u.joiners[j := Idle(Esrch)])
    case Some(k) =>
      var info := u.t.slots[k].value;
      if info.serial == self then u.(joiners := u.joiners[j := Idle(Edeadlk)])
      else if info.state == Running then u.(joiners := u.joiners[j := AtTake(k, info.serial)])
      else if info.state == Join then Finish(u, j, known, k)
      else u.(joiners := u.joiners[j := Idle(Einval)])
  }

  function CheckJoin(s: State, j: nat, known: set<nat>): State
    requires |s.t.slots| == MAX_THREADS && Enabled(s, JoinCheck(j, known))
  {
    var k := s.joiners[j].slot;
    var info := s.t.slots[k].value;
    if info.state == Running then s.(joiners := s.joiners[j := AtTake(k, info.serial)])
    else if info.state == Join then Finish(s, j, known, k)
    else s.(joiners := s.joiners[j := Idle(Einval)])
  }

  function Step(s: State, e: Event): State
    requires |s.t.slots| == MAX_THREADS && Enabled(s, e)
  {
    match e
    case Create(known, joinable) => s.(t := ThreadTable.Create(s.t, known, joinable).0)
    case Exit(k, value) =>
      s.(t := ThreadTable.Exit(s.t, k, value), exits := s.exits[s.t.slots[k].value.serial := value])
    case Detach(known, id) =>
      var k := Lookup(s.t, id);
      s.(t := ThreadTable.Detach(s.t, known, id).0,
         detached := if k.Some? then s.detached + {s.t.slots[k.value].value.serial} else s.detached)
    case JoinStart(j, known, self, id) => StartJoin(s, j, known, self, id)
    case JoinTake(j) =>
      var k, serial := s.joiners[j].slot, s.joiners[j].serial;
      s.(t := s.t.(slots := s.t.slots[k := Some(s.t.slots[k].value.(joinerFull := false))]),
         joiners := s.joiners[j := AtCheck(k, serial)])
    case JoinCheck(j, known) => CheckJoin(s, j, known)
  }

  // ---- invariants ----------------------------------------------------------------------

  // A thread has an exit value exactly when it is past its exit, and its block stores it.
  predicate ExitsStored(t: Table, exits: map<nat, int>) {
    && (forall serial | serial in exits :: serial < t.created)
    && forall k | 0 <= k < |t.slots| && t.slots[k].Some? ::
         var info := t.slots[k].value;
         if info.state == Join || info.state == Exited then
           info.serial in exits && info.retval == exits[info.serial]
         else info.serial !in exits
  }

  predicate YoungerOrRetired(slot: Option<Info>, serial: nat) {
    slot.Some? ==>
      slot.value.serial > serial || (slot.value.serial == serial && slot.value.state == Exited)
  }

  // Every successful join handed back the exit value, and what its slot holds now is a younger
  // thread or the retired one that the reaper could not take.
  predicate JoinsRight(t: Table, exits: map<nat, int>, joined: map<nat, Joined>) {
    forall serial | serial in joined ::
      && serial in exits && joined[serial].value == exits[serial]
      && joined[serial].slot < |t.slots|
      && YoungerOrRetired(t.slots[joined[serial].slot], serial)
  }

  // A waiting joiner's pointer is good, unless its thread was detached meanwhile; and if the
  // thread is past its exit, the semaphore is there to be taken.
  predicate JoinerRight(t: Table, joiner: Joiner, detached: set<nat>) {
    joiner.Idle?
    || (&& joiner.serial < t.created && joiner.slot < |t.slots|
        && (joiner.serial in detached
            || (Alive(t, joiner.slot, joiner.serial)
                && (InState(t.slots[joiner.slot], Running) || InState(t.slots[joiner.slot], Join))))
        && (joiner.AtTake? && Alive(t, joiner.slot, joiner.serial) && !InState(t.slots[joiner.slot], Running) ==>
              t.slots[joiner.slot].value.joinerFull))
  }

  predicate JoinersRight(t: Table, joiners: seq<Joiner>, detached: set<nat>) {
    && (forall j | 0 <= j < |joiners| :: JoinerRight(t, joiners[j], detached))
    && forall i, j | 0 <= i < j < |joiners| && !joiners[i].Idle? :: !Waits(joiners[j], joiners[i].serial)
  }

  ghost predicate Inv(s: State) {
    && Agree(s.t) && Issued(s.t)
    && ExitsStored(s.t, s.exits)
    && JoinsRight(s.t, s.exits, s.joined)
    && JoinersRight(s.t, s.joiners, s.detached)
  }

  lemma ReapKeepsInv(s: State, known: set<nat>)
    requires Inv(s)
    ensures Inv(s.(t := Reap(s.t, known)))
  {
    ReapAgrees(s.t, known);
  }

  lemma CreateKeepsInv(s: State, known: set<nat>, joinable: bool)
    requires Inv(s) && s.t.next < MAX_THREADS
    ensures Inv(s.(t := ThreadTable.Create(s.t, known, joinable).0))
  {
    ReapKeepsInv(s, known);
    CreateAgrees(s.t, known, joinable);
    CreateIssues(s.t, known, joinable);
    var u := s.(t := Reap(s.t, known));
    if !Full(u.t.slots) {
      InstallKeepsStored(u, FreeSlot(u.t), joinable);
      InstallKeepsJoiners(u, FreeSlot(u.t), joinable);
    }
    hide ExitsStored, JoinsRight, JoinersRight, Agree, Issued, Install;
  }

  lemma InstallKeepsStored(s: State, k: nat, joinable: bool)
    requires Issued(s.t) && ExitsStored(s.t, s.exits) && JoinsRight(s.t, s.exits, s.joined)
    requires k < MAX_THREADS && s.t.slots[k].None?
    ensures ExitsStored(Install(s.t, k, joinable), s.exits)
    ensures JoinsRight(Install(s.t, k, joinable), s.exits, s.joined)
  {
  }

  lemma InstallKeepsJoiners(s: State, k: nat, joinable: bool)
    requires Issued(s.t) && JoinersRight(s.t, s.joiners, s.detached)
    requires k < MAX_THREADS && s.t.slots[k].None?
    ensures JoinersRight(Install(s.t, k, joinable), s.joiners, s.detached)
  {
  }

  lemma ExitKeepsInv(s: State, k: nat, value: int)
    requires Inv(s) && Live(s.t, k)
    ensures Inv(Step(s, Exit(k, value)))
  {
    hide ExitsStored, JoinsRight, JoinersRight, Agree;
    ExitAgrees(s.t, k, value);
    ExitStores(s, k, value);
    ExitKeepsJoiners(s, k, value);
  }

  lemma ExitStores(s: State, k: nat, value: int)
    requires Issued(s.t) && ExitsStored(s.t, s.exits) && JoinsRight(s.t, s.exits, s.joined) && Live(s.t, k)
    ensures var u := Step(s, Exit(k, value));
            ExitsStored(u.t, u.exits) && JoinsRight(u.t, u.exits, u.joined)
  {
  }

  lemma ExitKeepsJoiners(s: State, k: nat, value: int)
    requires |s.t.slots| == MAX_THREADS && JoinersRight(s.t, s.joiners, s.detached) && Live(s.t, k)
    ensures JoinersRight(Step(s, Exit(k, value)).t, s.joiners, s.detached)
  {
  }

  // The state right after a live thread was marked as detached.
  function MarkDetached(s: State, k: nat): State
    requires k < |s.t.slots| && s.t.slots[k].Some?
  {
    var info := s.t.slots[k].value;
    s.(t := s.t.(slots := s.t.slots[k := Some(info.(state := Detached, joinerFull := true))]),
       detached := s.detached + {info.serial})
  }

  lemma MarkKeepsJoiners(s: State, k: nat)
    requires |s.t.slots| == MAX_THREADS && JoinersRight(s.t, s.joiners, s.detached) && Live(s.t, k)
    ensures JoinersRight(MarkDetached(s, k).t, s.joiners, MarkDetached(s, k).detached)
  {
  }

  lemma MarkKeepsInv(s: State, k: nat)
    requires Inv(s) && Live(s.t, k)
    ensures Inv(MarkDetached(s, k))
  {
    SetDetachedAgrees(s.t, k);
    MarkKeepsJoiners(s, k);
    hide Agree, JoinersRight;
  }

  lemma DetachKeepsInv(s: State, known: set<nat>, id: nat)
    requires Inv(s) && Enabled(s, Detach(known, id))
    ensures Inv(Step(s, Detach(known, id)))
  {
    var k := Lookup(s.t, id);
    if k.Some? && !InState(s.t.slots[k.value], Detached) {
      MarkKeepsInv(s, k.value);
      ReapKeepsInv(MarkDetached(s, k.value), known);
    } else {
      if k.Some? { DetachedAgain(s, k.value); }
      ReapKeepsInv(s, known);
    }
  }

  lemma DetachedAgain(s: State, k: nat)
    requires Inv(s) && k < |s.t.slots| && s.t.slots[k].Some?
    ensures Inv(s.(detached := s.detached + {s.t.slots[k].value.serial}))
  {
    hide ExitsStored, JoinsRight, Agree, Issued;
  }

  lemma FinishKeepsInv(s: State, j: nat, known: set<nat>, k: nat)
    requires Inv(s) && j < |s.joiners| && k < MAX_THREADS && InState(s.t.slots[k], Join)
    requires forall i | 0 <= i < |s.joiners| && i != j :: !Waits(s.joiners[i], s.t.slots[k].value.serial)
    ensures Inv(Finish(s, j, known, k))
  {
    FinishJoinAgrees(s.t, known, k);
    FinishKeepsJoiners(s, j, known, k);
    hide JoinersRight, Agree;
  }

  lemma FinishKeepsJoiners(s: State, j: nat, known: set<nat>, k: nat)
    requires Inv(s) && j < |s.joiners| && k < MAX_THREADS && InState(s.t.slots[k], Join)
    requires forall i | 0 <= i < |s.joiners| && i != j :: !Waits(s.joiners[i], s.t.slots[k].value.serial)
    ensures JoinersRight(Finish(s, j, known, k).t, Finish(s, j, known, k).joiners, s.detached)
  {
    hide ExitsStored, JoinsRight, Agree;
  }

  lemma StartKeepsInv(s: State, j: nat, known: set<nat>, self: nat, id: nat)
    requires Inv(s) && Enabled(s, JoinStart(j, known, self, id))
    ensures Inv(StartJoin(s, j, known, self, id))
  {
    ReapKeepsInv(s, known);
    var u := s.(t := Reap(s.t, known));
    var k := Lookup(u.t, id);
    if k.Some? && u.t.slots[k.value].value.serial != self {
      if InState(u.t.slots[k.value], Join) {
        FinishKeepsInv(u, j, known, k.value);
      } else if InState(u.t.slots[k.value], Running) {
        WaitKeepsInv(u, j, k.value);
      }
    }
    hide ExitsStored, JoinsRight, JoinersRight, Agree, Issued, Finish, Reap;
  }

  lemma WaitKeepsInv(s: State, j: nat, k: nat)
    requires Inv(s) && j < |s.joiners| && k < MAX_THREADS && InState(s.t.slots[k], Running)
    requires forall i | 0 <= i < |s.joiners| && i != j :: !Waits(s.joiners[i], s.t.slots[k].value.serial)
    ensures Inv(s.(joiners := s.joiners[j := AtTake(k, s.t.slots[k].value.serial)]))
  {
    hide ExitsStored, JoinsRight, Agree;
  }

  lemma TakeKeepsInv(s: State, j: nat)
    requires Inv(s) && Enabled(s, JoinTake(j))
    ensures Inv(Step(s, JoinTake(j)))
  {
    hide ExitsStored, JoinsRight, JoinersRight;
    var k := s.joiners[j].slot;
    var x := Some(s.t.slots[k].value.(joinerFull := false));
    CountAfter(s.t.slots, k, x, Exited);
    CountAfter(s.t.slots, k, x, Join);
    TakeStores(s, j);
    TakeKeepsJoiners(s, j);
  }

  lemma TakeStores(s: State, j: nat)
    requires |s.t.slots| == MAX_THREADS && Enabled(s, JoinTake(j))
    requires ExitsStored(s.t, s.exits) && JoinsRight(s.t, s.exits, s.joined)
    ensures var u := Step(s, JoinTake(j)); ExitsStored(u.t, u.exits) && JoinsRight(u.t, u.exits, u.joined)
  {
  }

  lemma TakeKeepsJoiners(s: State, j: nat)
    requires Issued(s.t) && Enabled(s, JoinTake(j)) && JoinersRight(s.t, s.joiners, s.detached)
    ensures var u := Step(s, JoinTake(j)); JoinersRight(u.t, u.joiners, s.detached)
  {
  }

  lemma CheckKeepsInv(s: State, j: nat, known: set<nat>)
    requires Inv(s) && Enabled(s, JoinCheck(j, known))
    ensures Inv(CheckJoin(s, j, known))
  {
    var k := s.joiners[j].slot;
    if InState(s.t.slots[k], Join) {
      FinishKeepsInv(s, j, known, k);
    }
  }

  lemma StepKeepsInv(s: State, e: Event)
    requires Inv(s) && Enabled(s, e)
    ensures Inv(Step(s, e))
  {
    hide ExitsStored, JoinsRight, JoinersRight, Agree, Issued;
    match e
    case Create(known, joinable) => CreateKeepsInv(s, known, joinable);
    case Exit(k, value) => ExitKeepsInv(s, k, value);
    case Detach(known, id) => DetachKeepsInv(s, known, id);
    case JoinStart(j, known, self, id) => StartKeepsInv(s, j, known, self, id);
    case JoinTake(j) => TakeKeepsInv(s, j);
    case JoinCheck(j, known) => CheckKeepsInv(s, j, known);
  }

  // ---- theorems ------------------------------------------------------------------------

  predicate IsInitial(s: State) {
    && |s.t.slots| == MAX_THREADS && (forall k | 0 <= k < MAX_THREADS :: s.t.slots[k].None?)
    && s.t.(slots := []) == Table([], 0, 0, 0, 0, COOKIE_INC, 0, s.t.wraps)
    && (forall j | 0 <= j < |s.joiners| :: s.joiners[j] == Idle(NoCall))
    && s.exits == map[] && s.joined == map[] && s.detached == {}
  }

  ghost predicate IsRun(states: seq<State>, events: seq<Event>) {
    && |states| == |events| + 1
    && IsInitial(states[0])
    && forall i | 0 <= i < |events| :: |states[i].t.slots| == MAX_THREADS ==>
         Enabled(states[i], events[i]) && states[i + 1] == Step(states[i], events[i])
  }

  lemma {:induction false} NoneOccupied(slots: seq<Option<Info>>)
    requires forall k | 0 <= k < |slots| :: slots[k].None?
    ensures CountOccupied(slots) == 0
  {
    if slots != [] { NoneOccupied(slots[1..]); }
  }

  // In every interleaving the counters agree with the table, a join that succeeded did so
  // after the thread's exit and handed back exactly its value, and waiting joiners are right.
  lemma {:induction false} JoinsAlwaysRight(states: seq<State>, events: seq<Event>, n: nat)
    requires IsRun(states, events) && n <= |events|
    ensures Inv(states[n])
  {
    if n == 0 {
      NoneOccupied(states[0].t.slots);
      CountZero(states[0].t.slots, Exited);
      CountZero(states[0].t.slots, Join);
    } else {
      hide ExitsStored, JoinsRight, JoinersRight, Issued, Step, Enabled;
      JoinsAlwaysRight(states, events, n - 1);
      StepKeepsInv(states[n - 1], events[n - 1]);
    }
  }

  // ---- what a join returns -------------------------------------------------------------

  // Thread `info` in slot k has this id and has not been retired.
  predicate Owns(t: Table, id: nat, k: nat) {
    && k < |t.slots| && t.slots[k].Some?
    && t.slots[k].value.id == id && t.slots[k].value.state in {Running, Detached, Join}
  }

  // The join of thread `serial` in slot `k` has succeeded: the caller has the value given to
  // the thread's exit, and the thread is retired and, if its status can be read, gone.
  ghost predicate Succeeds(s: State, u: State, j: nat, known: set<nat>, k: nat, serial: nat) {
    && j < |u.joiners| && serial in s.exits && k < |u.t.slots|
    && u.joiners[j] == Idle(Success(s.exits[serial]))
    && u.joined == s.joined[serial := Joined(k, s.exits[serial])]
    && (k in known <==> u.t.slots[k].None?)
    && (u.t.slots[k].Some? ==> InState(u.t.slots[k], Exited) && u.t.slots[k].value.serial == serial)
  }

  // Any other call: it returns or waits as said, and hands nothing back.
  ghost predicate Comes(s: State, u: State, j: nat, to: Joiner) {
    j < |u.joiners| && u.joiners[j] == to && u.joined == s.joined
  }

  // After waking up a joiner waits on for a running thread, has the value of one that exited,
  // and gets EINVAL for one that was detached; no other joiner notices.
  lemma JoinCheckReturns(s: State, j: nat, known: set<nat>)
    requires Inv(s) && Enabled(s, JoinCheck(j, known))
    ensures var u, k, serial := Step(s, JoinCheck(j, known)), s.joiners[j].slot, s.joiners[j].serial;
      && (InState(s.t.slots[k], Running) ==> Comes(s, u, j, AtTake(k, serial)) && u.t == s.t)
      && (InState(s.t.slots[k], Join) ==> Succeeds(s, u, j, known, k, serial))
      && (InState(s.t.slots[k], Detached) || InState(s.t.slots[k], Exited) ==> Comes(s, u, j, Idle(Einval)) && u.t == s.t)
      && |u.joiners| == |s.joiners| && forall i | 0 <= i < |s.joiners| && i != j :: u.joiners[i] == s.joiners[i]
  {
    var k := s.joiners[j].slot;
    if InState(s.t.slots[k], Join) { FinishSucceeds(s, j, known, k); }
    hide Finish;
  }

  lemma FinishSucceeds(s: State, j: nat, known: set<nat>, k: nat)
    requires Inv(s) && j < |s.joiners| && k < MAX_THREADS && InState(s.t.slots[k], Join)
    ensures var u := Finish(s, j, known, k);
      && Succeeds(s, u, j, known, k, s.t.slots[k].value.serial)
      && |u.joiners| == |s.joiners| && forall i | 0 <= i < |s.joiners| && i != j :: u.joiners[i] == s.joiners[i]
  {
    FinishJoinAgrees(s.t, known, k);
    hide JoinsRight, JoinersRight, Agree;
  }

  // Waking up takes the semaphore and nothing else.
  lemma JoinTakeIs(s: State, j: nat)
    requires Inv(s) && Enabled(s, JoinTake(j))
    ensures var u, k, serial := Step(s, JoinTake(j)), s.joiners[j].slot, s.joiners[j].serial;
      && u.joiners == s.joiners[j := AtCheck(k, serial)] && u.joined == s.joined
      && u.t.slots[k].Some? && !u.t.slots[k].value.joinerFull
      && u.t.slots[k].value.(joinerFull := true) == s.t.slots[k].value
      && u.t == s.t.(slots := s.t.slots[k := u.t.slots[k]])
  {
  }

  // Lookup finds exactly the owner of an id.
  lemma LookupIsOwner(t: Table, id: nat)
    requires Issued(t) && NamesSlot(id)
    ensures forall k: nat :: Owns(t, id, k) <==> Lookup(t, id) == Some(k)
  {
    forall k: nat ensures Owns(t, id, k) <==> Lookup(t, id) == Some(k) {
      if Owns(t, id, k) { IdParts(t.slots[k].value.serial, k); }
    }
  }

  lemma ReapKeepsOwners(t: Table, known: set<nat>, id: nat)
    requires |t.slots| == MAX_THREADS
    ensures forall k: nat :: Owns(Reap(t, known), id, k) <==> Owns(t, id, k)
    ensures forall k: nat | Owns(t, id, k) :: Reap(t, known).slots[k] == t.slots[k]
  {
  }

  // A join returns ESRCH exactly if nobody owns the id, EDEADLK to the owner itself, EINVAL if
  // the owner is detached and the value of an owner that has exited; for a running owner it
  // begins to wait.
  lemma JoinStartReturns(s: State, j: nat, known: set<nat>, self: nat, id: nat)
    requires Inv(s) && Enabled(s, JoinStart(j, known, self, id))
    ensures var u := Step(s, JoinStart(j, known, self, id));
      && |u.joiners| == |s.joiners| && (forall i | 0 <= i < |s.joiners| && i != j :: u.joiners[i] == s.joiners[i])
      && ((forall k: nat :: !Owns(s.t, id, k)) <==> Comes(s, u, j, Idle(Esrch)))
      && forall k: nat | Owns(s.t, id, k) ::
           var info := s.t.slots[k].value;
           if info.serial == self then Comes(s, u, j, Idle(Edeadlk))
           else if info.state == Running then Comes(s, u, j, AtTake(k, info.serial))
           else if info.state == Detached then Comes(s, u, j, Idle(Einval))
           else Succeeds(s, u, j, known, k, info.serial)
  {
    var u := s.(t := Reap(s.t, known));
    ReapKeepsInv(s, known);
    LookupIsOwner(u.t, id);
    ReapKeepsOwners(s.t, known, id);
    var k := Lookup(u.t, id);
    if k.Some? && InState(u.t.slots[k.value], Join) { FinishSucceeds(u, j, known, k.value); }
    hide Reap, Finish, Inv, Lookup;
  }

  // The id of a joined thread is dead: no later lookup resolves it within one cookie cycle.
  lemma JoinedIdIsDead(s: State, serial: nat)
    requires Inv(s) && serial in s.joined && s.t.created - serial <= COOKIES
    ensures NamesSlot(IdOf(serial, s.joined[serial].slot))
    ensures Lookup(s.t, IdOf(serial, s.joined[serial].slot)) == None
  {
    hide IdOf;
    StaleIdsNeverResolve(s.t, serial, s.joined[serial].slot);
  }

  // A joiner can go on as soon as the thread it waits for is past its exit.
  lemma JoinerNotForgotten(s: State, j: nat, known: set<nat>)
    requires Inv(s) && j < |s.joiners| && !s.joiners[j].Idle?
    requires Alive(s.t, s.joiners[j].slot, s.joiners[j].serial)
    requires !InState(s.t.slots[s.joiners[j].slot], Running)
    ensures Enabled(s, if s.joiners[j].AtTake? then JoinTake(j) else JoinCheck(j, known))
  {
  }

  // Only threads that somebody detached by their id count as detached.
  lemma {:induction false} DetachedOnPurpose(states: seq<State>, events: seq<Event>, serial: nat, n: nat) returns (i: nat, k: nat)
    requires IsRun(states, events) && n <= |events| && serial in states[n].detached
    ensures i < n && events[i].Detach? && Owns(states[i].t, events[i].id, k)
    ensures states[i].t.slots[k].value.serial == serial
  {
    JoinsAlwaysRight(states, events, n - 1);
    var s, e := states[n - 1], events[n - 1];
    if serial in s.detached {
      i, k := DetachedOnPurpose(states, events, serial, n - 1);
    } else {
      i := n - 1;
      k := DetachedNow(s, e, serial);
    }
  }

  lemma DetachedNow(s: State, e: Event, serial: nat) returns (k: nat)
    requires Inv(s) && Enabled(s, e) && serial !in s.detached && serial in Step(s, e).detached
    ensures e.Detach? && Owns(s.t, e.id, k) && s.t.slots[k].value.serial == serial
  {
    assert e.Detach?;
    LookupIsOwner(s.t, e.id);
    k := Lookup(s.t, e.id).value;
    hide Inv, Lookup;
  }

  // A waiting joiner's control block can only disappear under it when somebody detached the
  // thread after the join began or before it exited.
  lemma OnlyDetachDangles(s: State, j: nat)
    requires Inv(s) && j < |s.joiners| && !s.joiners[j].Idle?
    requires s.joiners[j].serial !in s.detached
    ensures Alive(s.t, s.joiners[j].slot, s.joiners[j].serial)
  {
  }

  // `s1` is what the event leads to, if it is possible at all.
  ghost predicate Follows(s: State, e: Event, s1: State) {
    |s.t.slots| == MAX_THREADS && Enabled(s, e) ==> s1 == Step(s, e)
  }

  // The pointer does dangle then: detaching a running thread that somebody waits for, the
  // thread's exit and a creation that reaps it leave the joiner with a block that is gone.
  lemma DetachDangles(s: State, j: nat, known: set<nat>, value: int, joinable: bool, s1: State, s2: State)
    requires Inv(s) && s.t.next < MAX_THREADS && j < |s.joiners| && !s.joiners[j].Idle?
    requires Alive(s.t, s.joiners[j].slot, s.joiners[j].serial) && InState(s.t.slots[s.joiners[j].slot], Running)
    requires Follows(s, Detach(known, s.t.slots[s.joiners[j].slot].value.id), s1)
    requires Follows(s1, Exit(s.joiners[j].slot, value), s2)
    ensures Enabled(s, Detach(known, s.t.slots[s.joiners[j].slot].value.id))
    ensures |s1.t.slots| == MAX_THREADS && Enabled(s1, Exit(s.joiners[j].slot, value))
    ensures |s2.t.slots| == MAX_THREADS && Enabled(s2, Create(known, joinable))
    ensures Step(s2, Create(known, joinable)).joiners == s.joiners
    ensures s.joiners[j].slot in known ==>
              !Alive(Step(s2, Create(known, joinable)).t, s.joiners[j].slot, s.joiners[j].serial)
  {
    var k := s.joiners[j].slot;
    var id := s.t.slots[k].value.id;
    LookupFindsOwner(s.t, k);
    assert InState(s1.t.slots[k], Detached);
    assert InState(s2.t.slots[k], Exited);
    if k in known { ReapedSlotIsNew(s2.t, k, known, joinable); }
  }

  lemma ReapedSlotIsNew(t: Table, k: nat, known: set<nat>, joinable: bool)
    requires |t.slots| == MAX_THREADS && t.next < MAX_THREADS && k < MAX_THREADS
    requires InState(t.slots[k], Exited) && k in known
    ensures var slot := ThreadTable.Create(t, known, joinable).0.slots[k];
            slot.Some? ==> slot.value.serial == t.created
  {
  }
}
