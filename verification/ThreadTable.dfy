/**
 The thread table of the POSIX threads on VxWorks: slots, the three counters that summarise
 them, and the cookie that makes thread ids unique when slots are reused.
 */
module ThreadTable {
  import opened Circle
  import opened Common

  const MAX_THREADS := 64
  const COOKIE_INC := 0x400
  const ID_RANGE := 0x1_0000_0000
  const COOKIES := 0x40_0000        // ID_RANGE / COOKIE_INC

  datatype ThreadState = Free | Detached | Running | Join | Exited

  // `serial` numbers the creations and names the control block; it is not stored in C, where
  // the block's address plays that role. `joinerFull` is the binary semaphore of the joiner.
  datatype Info = Info(state: ThreadState, id: nat, serial: nat, retval: int, joinerFull: bool)

  // `wraps` tells the table as it is meant to be, whose next index starts again at 0 after the
  // last slot; in the code it runs on, and `wraps` is false.
  datatype Table = Table(
    slots: seq<Option<Info>>,
    count: int,
    exited: int,
    toBeJoined: int,
    next: nat,
    cookie: nat,
    created: nat,
    wraps: bool)

  // ---- counters ------------------------------------------------------------------------

  predicate InState(slot: Option<Info>, st: ThreadState) {
    slot.Some? && slot.value.state == st
  }

  function CountState(slots: seq<Option<Info>>, st: ThreadState): (n: nat)
    ensures n <= |slots|
  {
    if slots == [] then 0
    else CountState(slots[1..], st) + if InState(slots[0], st) then 1 else 0
  }

  function CountOccupied(slots: seq<Option<Info>>): (n: nat)
    ensures n <= |slots|
  {
    if slots == [] then 0 else CountOccupied(slots[1..]) + if slots[0].Some? then 1 else 0
  }

  // The counters match the table.
  predicate Agree(t: Table) {
    && |t.slots| == MAX_THREADS
    && t.count == CountOccupied(t.slots)
    && t.exited == CountState(t.slots, Exited)
    && t.toBeJoined == CountState(t.slots, Join)
  }

  lemma {:induction false} CountAfter(slots: seq<Option<Info>>, k: nat, x: Option<Info>, st: ThreadState)
    requires k < |slots|
    ensures CountState(slots[k := x], st)
         == CountState(slots, st) - (if InState(slots[k], st) then 1 else 0) + (if InState(x, st) then 1 else 0)
    ensures CountOccupied(slots[k := x])
         == CountOccupied(slots) - (if slots[k].Some? then 1 else 0) + (if x.Some? then 1 else 0)
  {
    if k > 0 {
      CountAfter(slots[1..], k - 1, x, st);
      assert slots[k := x][1..] == slots[1..][k - 1 := x];
    } else {
      assert slots[k := x][1..] == slots[1..];
    }
  }

  lemma {:induction false} CountZero(slots: seq<Option<Info>>, st: ThreadState)
    ensures CountState(slots, st) == 0 <==> forall k | 0 <= k < |slots| :: !InState(slots[k], st)
  {
    if slots != [] {
      CountZero(slots[1..], st);
    }
  }

  // ---- the reaper ----------------------------------------------------------------------

  // The reaper passes over an exited thread whose task status it cannot read; `known` are the
  // slots where it can.
  predicate Reapable(slot: Option<Info>, k: nat, known: set<nat>) {
    InState(slot, Exited) && k in known
  }

  function ReapSlots(slots: seq<Option<Info>>, known: set<nat>): (r: seq<Option<Info>>)
    ensures |r| == |slots|
    ensures forall k | 0 <= k < |r| :: r[k] == if Reapable(slots[k], k, known) then None else slots[k]
  {
    seq(|slots|, k requires 0 <= k < |slots| => if Reapable(slots[k], k, known) then None else slots[k])
  }

  function Reap(t: Table, known: set<nat>): Table {
    var slots := ReapSlots(t.slots, known);
    var left := CountState(slots, Exited);
    t.(slots := slots, count := t.count - (CountState(t.slots, Exited) - left), exited := left)
  }

  // The first `i` slots reaped.
  function ReapFront(slots: seq<Option<Info>>, known: set<nat>, i: nat): (r: seq<Option<Info>>)
    requires i <= |slots|
    ensures |r| == |slots|
    ensures forall k | 0 <= k < |r| :: r[k] == if k < i && Reapable(slots[k], k, known) then None else slots[k]
  {
    ReapSlots(slots[..i], known) + slots[i..]
  }

  lemma ReapStep(slots: seq<Option<Info>>, known: set<nat>, i: nat)
    requires i < |slots|
    ensures ReapFront(slots, known, i)[i] == slots[i]
    ensures ReapFront(slots, known, i + 1)
         == ReapFront(slots, known, i)[i := if Reapable(slots[i], i, known) then None else slots[i]]
  {
  }

  // Reaping takes as many from the occupied slots as from the exited threads, and no others.
  lemma {:induction false} ReapFrontCounts(slots: seq<Option<Info>>, known: set<nat>, i: nat)
    requires i <= |slots|
    ensures var r := ReapFront(slots, known, i);
      && CountState(r, Join) == CountState(slots, Join)
      && CountState(slots, Exited) - CountState(r, Exited) == CountOccupied(slots) - CountOccupied(r)
  {
    if i == 0 {
      assert ReapFront(slots, known, 0) == slots;
    } else {
      hide CountState, CountOccupied, ReapFront;
      ReapFrontCounts(slots, known, i - 1);
      ReapStep(slots, known, i - 1);
      var x := if Reapable(slots[i - 1], i - 1, known) then None else slots[i - 1];
      CountAfter(ReapFront(slots, known, i - 1), i - 1, x, Join);
      CountAfter(ReapFront(slots, known, i - 1), i - 1, x, Exited);
    }
  }

  lemma ReapCounts(slots: seq<Option<Info>>, known: set<nat>)
    ensures var r := ReapSlots(slots, known);
      && CountState(r, Join) == CountState(slots, Join)
      && CountState(slots, Exited) - CountState(r, Exited) == CountOccupied(slots) - CountOccupied(r)
  {
    ReapFrontCounts(slots, known, |slots|);
    assert ReapFront(slots, known, |slots|) == ReapSlots(slots, known);
  }

  lemma ReapAgrees(t: Table, known: set<nat>)
    requires Agree(t)
    ensures Agree(Reap(t, known))
  {
    ReapCounts(t.slots, known);
  }

  // No exited thread is left, and the counter is zero, if and only if the reaper could read
  // the status of all.
  lemma ReapLeavesNoneExactly(t: Table, known: set<nat>)
    requires Agree(t)
    ensures Reap(t, known).exited == 0 <==> forall k | 0 <= k < MAX_THREADS && InState(t.slots[k], Exited) :: k in known
    ensures forall k | 0 <= k < MAX_THREADS && !Reapable(t.slots[k], k, known) :: Reap(t, known).slots[k] == t.slots[k]
  {
    var r := ReapSlots(t.slots, known);
    CountZero(r, Exited);
    forall k | 0 <= k < MAX_THREADS && InState(t.slots[k], Exited) ensures InState(r[k], Exited) <==> k !in known {
    }
  }

  // ---- creation ------------------------------------------------------------------------

  function FreeMask(slots: seq<Option<Info>>): (m: seq<bool>)
    ensures |m| == |slots| && forall k | 0 <= k < |m| :: m[k] == slots[k].None?
  {
    seq(|slots|, k requires 0 <= k < |slots| => slots[k].None?)
  }

  predicate Full(slots: seq<Option<Info>>) {
    forall k | 0 <= k < |slots| :: slots[k].Some?
  }

  // The first free slot at or after the next index, wrapping.
  function FreeSlot(t: Table): (k: nat)
    requires t.next < |t.slots| && !Full(t.slots)
    ensures k < |t.slots| && t.slots[k].None?
  {
    assert exists k :: 0 <= k < |FreeMask(t.slots)| && FreeMask(t.slots)[k] by {
      var k :| 0 <= k < |t.slots| && t.slots[k].None?;
      assert FreeMask(t.slots)[k];
    }
    ServedSlot(FreeMask(t.slots), t.next)
  }

  function NextIndex(k: nat, wraps: bool): nat {
    if wraps && k + 1 == MAX_THREADS then 0 else k + 1
  }

  function Install(t: Table, k: nat, joinable: bool): Table
    requires k < |t.slots|
  {
    var cookie := (t.cookie + COOKIE_INC) % ID_RANGE;
    var info := Info(if joinable then Running else Detached, (k + cookie) % ID_RANGE, t.created, 0, true);
    t.(slots := t.slots[k := Some(info)], next := NextIndex(k, t.wraps), cookie := cookie,
       count := t.count + 1, created := t.created + 1)
  }

  // ENOMEM when no slot is free after reaping, else the new thread's slot.
  function Create(t: Table, known: set<nat>, joinable: bool): (r: (Table, Option<nat>))
    requires t.next < |t.slots|
  {
    var u := Reap(t, known);
    if Full(u.slots) then (u, None)
    else (Install(u, FreeSlot(u), joinable), Some(FreeSlot(u)))
  }

  // ---- lookup, exit, detach, the end of a join -----------------------------------------

  // An id names a slot of the table by its low ten bits.
  predicate NamesSlot(id: nat) {
    id % COOKIE_INC < MAX_THREADS
  }

  function Lookup(t: Table, id: nat): (r: Option<nat>)
    requires |t.slots| == MAX_THREADS && NamesSlot(id)
    ensures r.Some? ==> r.value < MAX_THREADS && t.slots[r.value].Some?
  {
    var k := id % COOKIE_INC;
    match t.slots[k]
    case None => None
    case Some(info) =>
      if info.state == Free || info.state == Exited then None
      else if info.id != id then None
      else Some(k)
  }

  predicate Live(t: Table, k: nat) {
    k < |t.slots| && (InState(t.slots[k], Running) || InState(t.slots[k], Detached))
  }

  // The locked part of pthread_exit, by the thread in slot `k`.
  function Exit(t: Table, k: nat, retval: int): Table
    requires Live(t, k)
  {
    var info := t.slots[k].value.(retval := retval, joinerFull := true);
    if info.state == Detached then
      t.(slots := t.slots[k := Some(info.(state := Exited))], exited := t.exited + 1)
    else
      t.(slots := t.slots[k := Some(info.(state := Join))], toBeJoined := t.toBeJoined + 1)
  }

  datatype DetachResult = DetachOk | NoSuchThread | AlreadyDetached

  function Detach(t: Table, known: set<nat>, id: nat): (r: (Table, DetachResult))
    requires |t.slots| == MAX_THREADS && NamesSlot(id)
  {
    match Lookup(t, id)
    case None => (Reap(t, known), NoSuchThread)
    case Some(k) =>
      var info := t.slots[k].value;
      if info.state == Detached then (Reap(t, known), AlreadyDetached)
      else (Reap(t.(slots := t.slots[k := Some(info.(state := Detached, joinerFull := true))]), known), DetachOk)
  }

  // What pthread_join does with a joinee that has exited.
  function FinishJoin(t: Table, known: set<nat>, k: nat): Table
    requires k < |t.slots| && InState(t.slots[k], Join)
  {
    var info := t.slots[k].value;
    Reap(t.(slots := t.slots[k := Some(info.(state := Exited))],
            exited := t.exited + 1, toBeJoined := t.toBeJoined - 1), known)
  }

  lemma CreateAgrees(t: Table, known: set<nat>, joinable: bool)
    requires Agree(t) && t.next < MAX_THREADS
    ensures Agree(Create(t, known, joinable).0)
    ensures Create(t, known, joinable).1.None? <==> Full(Reap(t, known).slots)
    ensures Create(t, known, joinable).1.None? ==> Create(t, known, joinable).0 == Reap(t, known)
  {
    ReapAgrees(t, known);
    var u := Reap(t, known);
    if !Full(u.slots) {
      var k := FreeSlot(u);
      var x := Install(u, k, joinable).slots[k];
      CountAfter(u.slots, k, x, Exited);
      CountAfter(u.slots, k, x, Join);
    }
  }

  // The position of the search for a free slot after i steps.
  function Probe(start: nat, i: nat): nat {
    if i == 0 then start
    else
      var next := Probe(start, i - 1) + 1;
      if next >= MAX_THREADS then 0 else next
  }

  lemma NextModulo(x: nat)
    ensures (if x % MAX_THREADS + 1 >= MAX_THREADS then 0 else x % MAX_THREADS + 1) == (x + 1) % MAX_THREADS
  {
  }

  lemma {:induction false} ProbeIs(start: nat, i: nat)
    requires start < MAX_THREADS
    ensures Probe(start, i) == (start + i) % MAX_THREADS
  {
    if i > 0 {
      ProbeIs(start, i - 1);
      NextModulo(start + i - 1);
    }
  }

  lemma {:induction false} ProbeFromOutside(i: nat)
    requires i > 0
    ensures Probe(MAX_THREADS, i) < MAX_THREADS
  {
    if i > 1 { ProbeFromOutside(i - 1); }
  }

  // The search comes back to where it started, which is its "no slots left" exit, if and only
  // if it started inside the table.
  lemma SearchReturnsExactly(start: nat)
    requires start <= MAX_THREADS
    ensures (exists i: nat :: i > 0 && Probe(start, i) == start) <==> start < MAX_THREADS
  {
    if start < MAX_THREADS {
      ProbeIs(start, MAX_THREADS);
      assert (start + MAX_THREADS) % MAX_THREADS == start;
      assert Probe(start, MAX_THREADS) == start;
    } else {
      forall i: nat | i > 0 ensures Probe(start, i) != start {
        ProbeFromOutside(i);
      }
    }
  }

  lemma ExitAgrees(t: Table, k: nat, retval: int)
    requires Agree(t) && Live(t, k)
    ensures Agree(Exit(t, k, retval))
  {
    var x := Exit(t, k, retval).slots[k];
    CountAfter(t.slots, k, x, Exited);
    CountAfter(t.slots, k, x, Join);
  }

  lemma SetExitedAgrees(t: Table, k: nat)
    requires Agree(t) && k < MAX_THREADS && InState(t.slots[k], Join)
    ensures Agree(t.(slots := t.slots[k := Some(t.slots[k].value.(state := Exited))],
                     exited := t.exited + 1, toBeJoined := t.toBeJoined - 1))
  {
    var x := Some(t.slots[k].value.(state := Exited));
    CountAfter(t.slots, k, x, Exited);
    CountAfter(t.slots, k, x, Join);
  }

  lemma SetDetachedAgrees(t: Table, k: nat)
    requires Agree(t) && Live(t, k)
    ensures Agree(t.(slots := t.slots[k := Some(t.slots[k].value.(state := Detached, joinerFull := true))]))
  {
    var x := Some(t.slots[k].value.(state := Detached, joinerFull := true));
    CountAfter(t.slots, k, x, Exited);
    CountAfter(t.slots, k, x, Join);
  }

  // The joinee's slot is empty afterwards if its task status can be read, and holds a retired
  // thread otherwise.
  lemma FinishJoinAgrees(t: Table, known: set<nat>, k: nat)
    requires Agree(t) && k < MAX_THREADS && InState(t.slots[k], Join)
    ensures Agree(FinishJoin(t, known, k))
    ensures FinishJoin(t, known, k).slots[k].None? <==> k in known
    ensures FinishJoin(t, known, k).slots[k].Some? ==> InState(FinishJoin(t, known, k).slots[k], Exited)
  {
    SetExitedAgrees(t, k);
    var x := Some(t.slots[k].value.(state := Exited));
    ReapAgrees(t.(slots := t.slots[k := x], exited := t.exited + 1, toBeJoined := t.toBeJoined - 1), known);
  }

  // Detaching keeps the counters right if and only if the thread has not yet exited: a thread
  // that waits to be joined stays counted as such.
  lemma DetachAgreesExactly(t: Table, known: set<nat>, id: nat)
    requires Agree(t) && NamesSlot(id)
    ensures Agree(Detach(t, known, id).0)
       <==> !(Lookup(t, id).Some? && InState(t.slots[Lookup(t, id).value], Join))
  {
    ReapAgrees(t, known);
    if Detach(t, known, id).1 == DetachOk {
      var k := Lookup(t, id).value;
      var info := t.slots[k].value;
      var u := t.(slots := t.slots[k := Some(info.(state := Detached, joinerFull := true))]);
      CountAfter(t.slots, k, u.slots[k], Exited);
      CountAfter(t.slots, k, u.slots[k], Join);
      ReapCounts(u.slots, known);
    }
  }

  // ---- thread ids ----------------------------------------------------------------------

  // The id issued by creation number `serial` into slot `k`.
  function IdOf(serial: nat, k: nat): nat {
    k + COOKIE_INC * ((serial + 2) % COOKIES)
  }

  lemma IdParts(serial: nat, k: nat)
    requires k < COOKIE_INC
    ensures IdOf(serial, k) % COOKIE_INC == k && IdOf(serial, k) / COOKIE_INC == (serial + 2) % COOKIES
  {
  }

  // Two creations issue the same id exactly when they use the same slot and the cookie has
  // wrapped between them.
  lemma SameIdExactly(s: nat, j: nat, t: nat, k: nat)
    requires j < COOKIE_INC && k < COOKIE_INC
    ensures IdOf(s, j) == IdOf(t, k) <==> j == k && s % COOKIES == t % COOKIES
  {
    IdParts(s, j);
    IdParts(t, k);
    ShiftModulo(s, t);
  }

  lemma ShiftModulo(s: nat, t: nat)
    ensures (s + 2) % COOKIES == (t + 2) % COOKIES <==> s % COOKIES == t % COOKIES
  {
  }

  // The cookie after `created` creations, and every control block where its id says.
  ghost predicate Issued(t: Table) {
    && |t.slots| == MAX_THREADS
    && t.cookie == COOKIE_INC * ((t.created + 1) % COOKIES)
    && (forall k | 0 <= k < MAX_THREADS && t.slots[k].Some? ::
          && t.slots[k].value.serial < t.created
          && t.slots[k].value.id == IdOf(t.slots[k].value.serial, k)
          && t.slots[k].value.state != Free)
    && (forall j, k | 0 <= j < k < MAX_THREADS && t.slots[j].Some? && t.slots[k].Some? ::
          t.slots[j].value.serial != t.slots[k].value.serial)
  }

  lemma NextCookie(created: nat)
    ensures (COOKIE_INC * ((created + 1) % COOKIES) + COOKIE_INC) % ID_RANGE
         == COOKIE_INC * ((created + 2) % COOKIES)
    ensures COOKIE_INC * ((created + 2) % COOKIES) <= ID_RANGE - COOKIE_INC
  {
  }

  lemma CreateIssues(t: Table, known: set<nat>, joinable: bool)
    requires Issued(t) && t.next < MAX_THREADS
    ensures Issued(Create(t, known, joinable).0)
  {
    hide IdOf;
    NextCookie(t.created);
    var u := Reap(t, known);
    if !Full(u.slots) {
      var k := FreeSlot(u);
      IdIs(t.created, k, (t.cookie + COOKIE_INC) % ID_RANGE);
      InstallIssues(u, k, joinable);
    }
    hide Install;
  }

  lemma InstallIssues(u: Table, k: nat, joinable: bool)
    requires Issued(u) && k < MAX_THREADS && u.slots[k].None?
    requires (u.cookie + COOKIE_INC) % ID_RANGE == COOKIE_INC * ((u.created + 2) % COOKIES)
    requires (k + (u.cookie + COOKIE_INC) % ID_RANGE) % ID_RANGE == IdOf(u.created, k)
    ensures Issued(Install(u, k, joinable))
  {
    hide IdOf;
  }

  lemma IdIs(serial: nat, k: nat, cookie: nat)
    requires k < COOKIE_INC && cookie == COOKIE_INC * ((serial + 2) % COOKIES) && cookie <= ID_RANGE - COOKIE_INC
    ensures (k + cookie) % ID_RANGE == IdOf(serial, k)
  {
  }

  // The id of a thread that has not exited or waits to be joined resolves to it.
  lemma LookupFindsOwner(t: Table, k: nat)
    requires Issued(t) && k < MAX_THREADS && t.slots[k].Some? && t.slots[k].value.state != Exited
    ensures NamesSlot(t.slots[k].value.id) && Lookup(t, t.slots[k].value.id) == Some(k)
  {
  }

  // A lookup resolves only to a thread created a whole number of cookie cycles apart from the
  // creation that issued the id; so within one cycle an old id never resolves to the slot's
  // new occupant.
  lemma StaleIdsNeverResolve(t: Table, serial: nat, k: nat)
    requires Issued(t) && k < MAX_THREADS && serial < t.created
    ensures NamesSlot(IdOf(serial, k))
    ensures Lookup(t, IdOf(serial, k)).Some? ==>
      && Lookup(t, IdOf(serial, k)).value == k
      && t.slots[k].value.serial % COOKIES == serial % COOKIES
    ensures t.created - serial <= COOKIES && t.slots[k].Some? && t.slots[k].value.serial > serial ==>
              Lookup(t, IdOf(serial, k)) == None
  {
    hide IdOf;
    IdParts(serial, k);
    if Lookup(t, IdOf(serial, k)).Some? {
      SameIdExactly(serial, k, t.slots[k].value.serial, k);
    }
  }

  // ---- what each call leaves in the table ----------------------------------------------

  // Every other slot holds what reaping leaves there.
  predicate OthersReaped(t: Table, u: Table, known: set<nat>, k: nat) {
    && |u.slots| == |t.slots|
    && forall j | 0 <= j < |t.slots| && j != k :: u.slots[j] == if Reapable(t.slots[j], j, known) then None else t.slots[j]
  }

  // A new thread gets a slot that was empty or is reaped, is joinable or detached as asked for,
  // and is found by its new id.
  lemma NewThreadIs(t: Table, known: set<nat>, joinable: bool)
    requires Issued(t) && t.next < MAX_THREADS && Create(t, known, joinable).1.Some?
    ensures var (u, k) := Create(t, known, joinable);
      && k.value < MAX_THREADS && (t.slots[k.value].None? || Reapable(t.slots[k.value], k.value, known))
      && OthersReaped(t, u, known, k.value) && InState(u.slots[k.value], if joinable then Running else Detached)
      && var info := u.slots[k.value].value;
      && info.serial == t.created && info.retval == 0 && info.joinerFull
      && NamesSlot(info.id) && Lookup(u, info.id) == k
  {
    var (u, k) := Create(t, known, joinable);
    CreateIssues(t, known, joinable);
    LookupFindsOwner(u, k.value);
    hide IdOf, Lookup, NamesSlot;
  }

  // An exiting thread leaves its value and signals its joiner. A joinable one is found by its id
  // until it is joined, a detached one is not found any more.
  lemma ExitIs(t: Table, k: nat, retval: int)
    requires Issued(t) && k < MAX_THREADS && Live(t, k)
    ensures var u := Exit(t, k, retval);
      && u.slots[k].Some? && (forall j | 0 <= j < MAX_THREADS && j != k :: u.slots[j] == t.slots[j])
      && var info := u.slots[k].value;
      && info.retval == retval && info.joinerFull
      && (info.id, info.serial) == (t.slots[k].value.id, t.slots[k].value.serial)
      && NamesSlot(info.id) && Lookup(u, info.id) == (if InState(t.slots[k], Running) then Some(k) else None)
  {
    IdParts(t.slots[k].value.serial, k);
  }

  // Detaching fails for an unknown id and for a detached thread; else the thread is detached
  // and its joiner is signalled.
  lemma DetachIs(t: Table, known: set<nat>, id: nat)
    requires |t.slots| == MAX_THREADS && NamesSlot(id)
    ensures var (u, r) := Detach(t, known, id);
      match Lookup(t, id)
      case None => r == NoSuchThread && OthersReaped(t, u, known, MAX_THREADS)
      case Some(k) =>
        && OthersReaped(t, u, known, k) && InState(u.slots[k], Detached)
        && (r == AlreadyDetached <==> InState(t.slots[k], Detached))
        && (r == DetachOk <==> !InState(t.slots[k], Detached))
        && (r == DetachOk ==> u.slots[k].value.joinerFull)
        && u.slots[k].value.id == id
  {
  }
}
