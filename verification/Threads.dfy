/**
 The thread table as the code keeps it: an array of control blocks and the counters, updated
 in place. Every method is a locked section (or the locked part of one) and is tied to the
 function of ThreadTable that says what it does.
 */
module Threads {
  import opened Circle
  import opened Common
  import opened ThreadTable

  // With no exited thread left the reaper may stop early.
  lemma ReapDone(slots: seq<Option<Info>>, known: set<nat>, i: nat)
    requires i <= |slots|
    requires CountState(ReapFront(slots, known, i), Exited) == 0 || i == |slots|
    ensures ReapFront(slots, known, i) == ReapSlots(slots, known)
  {
    CountZero(ReapFront(slots, known, i), Exited);
    if i < |slots| {
      forall k | i <= k < |slots| ensures !Reapable(slots[k], k, known) {
        assert !InState(ReapFront(slots, known, i)[k], Exited);
      }
    }
  }

  lemma {:induction false} EmptyCounts(n: nat, slots: seq<Option<Info>>)
    requires |slots| == n && forall k | 0 <= k < n :: slots[k].None?
    ensures CountOccupied(slots) == 0
  {
    if n > 0 { EmptyCounts(n - 1, slots[1..]); }
  }

  class Threads {
    const table: array<Option<Info>>
    var count: int
    var exited: int
    var toBeJoined: int
    var next: nat
    var cookie: nat
    var created: nat
    const wraps: bool

    ghost function Now(): Table
      reads this, table
    {
      Table(table[..], count, exited, toBeJoined, next, cookie, created, wraps)
    }

    constructor (wraps: bool)
      ensures this.wraps == wraps && fresh(table) && Agree(Now()) && Issued(Now()) && next == 0 && created == 0
    {
      table := new Option<Info>[MAX_THREADS](_ => None);
      count, exited, toBeJoined, next, cookie := 0, 0, 0, 0, COOKIE_INC;
      created := 0;
      this.wraps := wraps;
      new;
      EmptyCounts(MAX_THREADS, table[..]);
      CountZero(table[..], Exited);
      CountZero(table[..], Join);
    }

    // The counter springs the loop as soon as every exited thread has been found, so of the
    // counters only that one has to be right.
    method Reap(known: set<nat>)
      requires table.Length == MAX_THREADS && exited == CountState(Now().slots, Exited)
      modifies table, `count, `exited
      ensures Now() == ThreadTable.Reap(old(Now()), known)
    {
      hide CountState, CountOccupied, ReapSlots, ReapFront;
      ghost var t := Now();
      var i: nat := 0;
      assert ReapFront(t.slots, known, 0) == t.slots;
      while exited > 0 && i < MAX_THREADS
        invariant i <= MAX_THREADS == table.Length && exited == CountState(table[..], Exited)
        invariant table[..] == ReapFront(t.slots, known, i)
        invariant count - exited == t.count - t.exited
        decreases MAX_THREADS - i
      {
        ReapStep(t.slots, known, i);
        if table[i].Some? && table[i].value.state == Exited && i in known {
          CountAfter(table[..], i, None, Exited);
          table[i] := None;
          count := count - 1;
          exited := exited - 1;
        }
        i := i + 1;
      }
      ReapDone(t.slots, known, i);
    }

    // The search for a free slot, from the next index once round.
    method FindFree() returns (k: Option<nat>)
      requires table.Length == MAX_THREADS && next < MAX_THREADS
      ensures k.None? <==> Full(Now().slots)
      ensures k.Some? ==> k.value == FreeSlot(Now())
    {
      var free: nat := next;
      ghost var mask, d := FreeMask(table[..]), 0;
      while table[free].Some?
        invariant free < MAX_THREADS == table.Length && d == Distance(MAX_THREADS, next, free)
        invariant forall j | 0 <= j < MAX_THREADS && Distance(MAX_THREADS, next, j) < d :: !mask[j]
        decreases MAX_THREADS - d
      {
        assert table[..][free].Some?;
        free := free + 1;
        if free >= MAX_THREADS {
          free := 0;
        }
        if free == next {
          assert forall j | 0 <= j < MAX_THREADS :: Distance(MAX_THREADS, next, j) <= d;
          assert forall j | 0 <= j < MAX_THREADS :: !mask[j];
          return None;
        }
        d := d + 1;
      }
      assert table[..][free].None?;
      ServesUnique(mask, next, free, FreeSlot(Now()));
      return Some(free);
    }

    // The locked part of pthread_create.
    method Create(known: set<nat>, joinable: bool) returns (k: Option<nat>)
      requires Agree(Now()) && Issued(Now()) && next < MAX_THREADS
      modifies this, table
      ensures (Now(), k) == ThreadTable.Create(old(Now()), known, joinable)
      ensures Agree(Now()) && Issued(Now())
    {
      hide CountState, CountOccupied, ReapSlots, IdOf, FreeSlot;
      CreateAgrees(Now(), known, joinable);
      CreateIssues(Now(), known, joinable);
      Reap(known);
      k := FindFree();
      if k.Some? {
        cookie := (cookie + COOKIE_INC) % ID_RANGE;
        table[k.value] := Some(Info(if joinable then Running else Detached, (k.value + cookie) % ID_RANGE, created, 0, true));
        next := NextIndex(k.value, wraps);
        count := count + 1;
        created := created + 1;
      }
    }

    // pthread_info_id.
    method Lookup(id: nat) returns (k: Option<nat>)
      requires table.Length == MAX_THREADS && NamesSlot(id)
      ensures k == ThreadTable.Lookup(Now(), id)
    {
      var index := id % COOKIE_INC;
      if table[index].None? { return None; }
      var info := table[index].value;
      if info.state == Free || info.state == Exited { return None; }
      if info.id != id { return None; }
      return Some(index);
    }

    // The locked part of pthread_exit.
    method Exit(k: nat, retval: int)
      requires Agree(Now()) && Live(Now(), k)
      modifies table, `exited, `toBeJoined
      ensures Now() == ThreadTable.Exit(old(Now()), k, retval) && Agree(Now())
    {
      hide CountState, CountOccupied;
      ExitAgrees(Now(), k, retval);
      var info := table[k].value.(retval := retval);
      if info.state == Detached {
        info := info.(state := Exited);
        exited := exited + 1;
      } else {
        info := info.(state := Join);
        toBeJoined := toBeJoined + 1;
      }
      table[k] := Some(info.(joinerFull := true));
    }

    // The end of pthread_join, with the joinee in slot `k` waiting to be joined.
    method FinishJoin(known: set<nat>, k: nat) returns (retval: int)
      requires Agree(Now()) && k < MAX_THREADS && InState(Now().slots[k], Join)
      modifies table, `count, `exited, `toBeJoined
      ensures Now() == ThreadTable.FinishJoin(old(Now()), known, k) && Agree(Now())
      ensures retval == old(table[k]).value.retval
    {
      hide CountState, CountOccupied, ReapSlots;
      SetExitedAgrees(Now(), k);
      FinishJoinAgrees(Now(), known, k);
      var info := table[k].value;
      retval := info.retval;
      table[k] := Some(info.(state := Exited));
      exited := exited + 1;
      toBeJoined := toBeJoined - 1;
      Reap(known);
    }

    // pthread_detach. The counters stay right exactly as DetachAgreesExactly says.
    method Detach(known: set<nat>, id: nat) returns (r: DetachResult)
      requires Agree(Now()) && NamesSlot(id)
      modifies table, `count, `exited
      ensures (Now(), r) == ThreadTable.Detach(old(Now()), known, id)
    {
      hide CountState, CountOccupied, ReapSlots;
      var k := Lookup(id);
      if k.None? {
        r := NoSuchThread;
      } else if table[k.value].value.state == Detached {
        r := AlreadyDetached;
      } else {
        CountAfter(table[..], k.value, Some(table[k.value].value.(state := Detached, joinerFull := true)), Exited);
        table[k.value] := Some(table[k.value].value.(state := Detached, joinerFull := true));
        r := DetachOk;
      }
      Reap(known);
    }
  }
}
