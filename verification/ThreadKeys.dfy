/**
 Keys for thread-specific data: the word bitmap of free keys, the destructor table and the
 per-thread data. `Keys` is the abstract view; KeyTable works on the words.
 */
module ThreadKeys {
  import opened Common

  const WORD := 32               // bits of a bitmap word
  const POINTER_SIZE := 4        // bytes
  const NULL := 0

  // `data[t]` is the thread-specific data of the thread in table slot `t`, if there is one.
  // `made[k]` counts the creations of key `k`; it is not stored in C and tells its owners apart.
  datatype Keys = Keys(free: seq<bool>, destructors: seq<int>, data: seq<Option<seq<int>>>, made: seq<nat>)

  predicate WellFormed(s: Keys) {
    && |s.destructors| == |s.free| == |s.made|
    && forall t | 0 <= t < |s.data| && s.data[t].Some? :: |s.data[t].value| == |s.free|
  }

  predicate Present(s: Keys, t: nat) {
    t < |s.data| && s.data[t].Some?
  }

  predicate Allocated(s: Keys, k: nat) {
    k < |s.free| && !s.free[k]
  }

  function LeastFree(free: seq<bool>): (r: Option<nat>)
    ensures r == None ==> forall k | 0 <= k < |free| :: !free[k]
    ensures r.Some? ==> r.value < |free| && free[r.value] && forall k | 0 <= k < r.value :: !free[k]
  {
    if free == [] then None
    else if free[0] then Some(0)
    else match LeastFree(free[1..])
      case None =>
        assert forall k | 1 <= k < |free| :: free[k] == free[1..][k - 1];
        None
      case Some(k) =>
        assert forall j | 1 <= j < |free| :: free[j] == free[1..][j - 1];
        Some(k + 1)
  }

  // Every thread's value for key `k` becomes NULL.
  function PlantNull(data: seq<Option<seq<int>>>, k: nat): (r: seq<Option<seq<int>>>)
    requires forall t | 0 <= t < |data| && data[t].Some? :: k < |data[t].value|
    ensures |r| == |data|
    ensures forall t | 0 <= t < |data| :: r[t] == if data[t].Some? then Some(data[t].value[k := NULL]) else None
  {
    seq(|data|, t requires 0 <= t < |data| => if data[t].Some? then Some(data[t].value[k := NULL]) else None)
  }

  // The new table and the key, or none for EAGAIN.
  function CreateKey(s: Keys, destructor: int): (r: (Keys, Option<nat>))
    requires WellFormed(s)
    ensures WellFormed(r.0)
  {
    match LeastFree(s.free)
    case None => (s, None)
    case Some(k) =>
      (Keys(s.free[k := false], s.destructors[k := destructor], PlantNull(s.data, k), s.made[k := s.made[k] + 1]), Some(k))
  }

  function DeleteKey(s: Keys, k: nat): Keys
    requires k < |s.free|
  {
    s.(free := s.free[k := true])
  }

  // The new table, and false for EINVAL.
  function SetSpecific(s: Keys, t: nat, k: nat, value: int): (r: (Keys, bool))
    requires WellFormed(s) && Present(s, t) && k < |s.free|
    ensures WellFormed(r.0)
  {
    if s.free[k] then (s, false)
    else (s.(data := s.data[t := Some(s.data[t].value[k := value])]), true)
  }

  function GetSpecific(s: Keys, t: nat, k: nat): int
    requires WellFormed(s) && Present(s, t) && k < |s.free|
  {
    if s.free[k] then NULL else s.data[t].value[k]
  }

  // The entries that thread creation clears: it clears as many bytes as there are keys.
  function Zeroed(keys: nat): nat {
    keys / POINTER_SIZE
  }

  // `junk` is what the memory of the new control block held before.
  function NewData(keys: nat, junk: seq<int>): (r: seq<int>)
    requires |junk| == keys
    ensures |r| == keys
    ensures forall k | 0 <= k < keys :: r[k] == if k < Zeroed(keys) then NULL else junk[k]
  {
    seq(keys, k requires 0 <= k < keys => if k < Zeroed(keys) then NULL else junk[k])
  }

  // ---- runs ----------------------------------------------------------------------------

  datatype Event =
    | Create(destructor: int)
    | Delete(key: nat)
    | Store(t: nat, key: nat, value: int)
    | Enter(t: nat, junk: seq<int>)      // a new thread in slot t
    | Leave(t: nat)                      // the reaper empties slot t

  predicate Enabled(s: Keys, e: Event) {
    match e
    case Create(_) => true
    case Delete(k) => k < |s.free|
    case Store(t, k, _) => Present(s, t) && k < |s.free|
    case Enter(t, junk) => t < |s.data| && s.data[t].None? && |junk| == |s.free|
    case Leave(t) => Present(s, t)
  }

  function Step(s: Keys, e: Event): (r: Keys)
    requires WellFormed(s) && Enabled(s, e)
    ensures WellFormed(r) && |r.free| == |s.free| && |r.data| == |s.data|
  {
    match e
    case Create(destructor) => CreateKey(s, destructor).0
    case Delete(k) => DeleteKey(s, k)
    case Store(t, k, value) => SetSpecific(s, t, k, value).0
    case Enter(t, junk) => s.(data := s.data[t := Some(NewData(|s.free|, junk))])
    case Leave(t) => s.(data := s.data[t := None])
  }

  ghost predicate IsRun(states: seq<Keys>, events: seq<Event>) {
    && |states| == |events| + 1
    && WellFormed(states[0])
    && (forall k | 0 <= k < |states[0].free| :: states[0].free[k])
    && (forall t | 0 <= t < |states[0].data| :: states[0].data[t].None?)
    && forall i | 0 <= i < |events| :: WellFormed(states[i]) ==>
         Enabled(states[i], events[i]) && states[i + 1] == Step(states[i], events[i])
  }

  lemma {:induction false} RunWellFormed(states: seq<Keys>, events: seq<Event>, n: nat)
    requires IsRun(states, events) && n <= |events|
    ensures WellFormed(states[n]) && |states[n].free| == |states[0].free| && |states[n].data| == |states[0].data|
  {
    if n > 0 { RunWellFormed(states, events, n - 1); }
  }

  // ---- theorems ------------------------------------------------------------------------

  // A key is issued if and only if one is free; it is the least free one, it becomes the one
  // new allocated key, and it reads NULL in every thread.
  lemma CreateIssuesLeast(s: Keys, destructor: int)
    requires WellFormed(s)
    ensures var (r, key) := CreateKey(s, destructor);
      && (key.None? <==> forall k | 0 <= k < |s.free| :: Allocated(s, k))
      && (key.None? ==> r == s)
      && (key.Some? ==>
            && key.value < |s.free| && !Allocated(s, key.value) && r.destructors[key.value] == destructor
            && (forall k | 0 <= k < key.value :: Allocated(s, k))
            && (forall k: nat :: Allocated(r, k) <==> Allocated(s, k) || k == key.value)
            && (forall k | 0 <= k < |s.free| && k != key.value :: r.destructors[k] == s.destructors[k])
            && (forall t: nat | Present(s, t) ::
                  Present(r, t) && GetSpecific(r, t, key.value) == NULL
                  && forall k | 0 <= k < |s.free| && k != key.value :: GetSpecific(r, t, k) == GetSpecific(s, t, k)))
  {
    var key := CreateKey(s, destructor).1;
    assert key.Some? ==> s.free[key.value] && !Allocated(s, key.value);
  }

  // Deleting a key frees that key and no other, and hides its values.
  lemma DeleteFreesOne(s: Keys, key: nat)
    requires WellFormed(s) && key < |s.free|
    ensures WellFormed(DeleteKey(s, key)) && DeleteKey(s, key).destructors == s.destructors
    ensures forall k: nat :: Allocated(DeleteKey(s, key), k) <==> Allocated(s, k) && k != key
    ensures forall t: nat, k: nat | Present(s, t) && k < |s.free| ::
              GetSpecific(DeleteKey(s, key), t, k) == if k == key then NULL else GetSpecific(s, t, k)
  {
  }

  // Storing is refused exactly for a free key, and then nothing changes; else the thread reads
  // the value there, and no other thread or key notices.
  lemma StoreIsRead(s: Keys, t: nat, key: nat, value: int, u: nat, k: nat)
    requires WellFormed(s) && Present(s, t) && key < |s.free| && Present(s, u) && k < |s.free|
    ensures var (r, ok) := SetSpecific(s, t, key, value);
      && (ok <==> Allocated(s, key)) && (!ok ==> r == s) && (r.free, r.destructors) == (s.free, s.destructors)
      && Present(r, u)
      && GetSpecific(r, u, k) == (if ok && u == t && k == key then value else GetSpecific(s, u, k))
  {
  }

  // Event m put `value` where thread t reads key k: a store by the thread itself, or its
  // creation over old memory.
  predicate PutBy(s: Keys, e: Event, t: nat, k: nat, value: int) {
    || e == Store(t, k, value)
    || (e.Enter? && e.t == t && k < |e.junk| && Zeroed(|s.free|) <= k && e.junk[k] == value)
  }

  predicate Overwrites(e: Event, t: nat, k: nat) {
    match e
    case Create(_) => false
    case Delete(key) => key == k
    case Store(u, key, _) => u == t && key == k
    case Enter(u, _) => u == t
    case Leave(u) => u == t
  }

  // From state a to state b the key has been allocated to one owner, and thread t has stayed.
  ghost predicate SameLife(states: seq<Keys>, a: nat, b: nat, t: nat, k: nat)
    requires b < |states|
  {
    forall i | a <= i <= b :: Allocated(states[i], k) && (i > a ==> Present(states[i], t))
  }

  ghost predicate LastPut(states: seq<Keys>, events: seq<Event>, m: nat, n: nat, t: nat, k: nat, value: int)
    requires |states| == |events| + 1
  {
    && m < n <= |events|
    && PutBy(states[m], events[m], t, k, value)
    && SameLife(states, m, n, t, k)
    && forall i | m < i < n :: !Overwrites(events[i], t, k)
  }

  // A value read is the value last put there since the key was created: never one stored
  // before a delete, by another thread, or before an earlier store.
  lemma {:induction false} ReadComesFromLastPut(states: seq<Keys>, events: seq<Event>, n: nat, t: nat, k: nat) returns (m: nat)
    requires IsRun(states, events) && n <= |events|
    requires WellFormed(states[n]) && Present(states[n], t) && k < |states[n].free|
    requires GetSpecific(states[n], t, k) != NULL
    ensures LastPut(states, events, m, n, t, k, GetSpecific(states[n], t, k))
  {
    RunWellFormed(states, events, n);
    assert n > 0;
    RunWellFormed(states, events, n - 1);
    var s, e := states[n - 1], events[n - 1];
    if PutBy(s, e, t, k, GetSpecific(states[n], t, k)) && Allocated(s, k) {
      m := n - 1;
    } else {
      StepKeepsRead(s, e, t, k);
      m := ReadComesFromLastPut(states, events, n - 1, t, k);
    }
  }

  lemma StepKeepsRead(s: Keys, e: Event, t: nat, k: nat)
    requires WellFormed(s) && Enabled(s, e) && Present(Step(s, e), t) && k < |s.free|
    requires GetSpecific(Step(s, e), t, k) != NULL
    requires !(PutBy(s, e, t, k, GetSpecific(Step(s, e), t, k)) && Allocated(s, k))
    ensures !Overwrites(e, t, k) && Present(s, t) && Allocated(s, k)
    ensures GetSpecific(s, t, k) == GetSpecific(Step(s, e), t, k)
  {
  }

  // Conversely, what was put last in the key's present life is what is read.
  lemma {:induction false} LastPutIsRead(states: seq<Keys>, events: seq<Event>, m: nat, n: nat, t: nat, k: nat, value: int)
    requires IsRun(states, events) && LastPut(states, events, m, n, t, k, value)
    ensures WellFormed(states[n]) && Present(states[n], t) && k < |states[n].free|
    ensures GetSpecific(states[n], t, k) == value
  {
    RunWellFormed(states, events, n);
    RunWellFormed(states, events, m);
    if m + 1 < n {
      LastPutIsRead(states, events, m, n - 1, t, k, value);
      assert Allocated(states[n - 1], k);
    }
  }

  // A new thread starts with NULL for every key if and only if the keys allocated at that
  // time beyond the cleared entries find NULL in the old memory.
  lemma NewThreadStartsNullExactly(s: Keys, t: nat, junk: seq<int>)
    requires WellFormed(s) && Enabled(s, Enter(t, junk))
    ensures (forall k | 0 <= k < |s.free| :: GetSpecific(Step(s, Enter(t, junk)), t, k) == NULL)
       <==> forall k | Zeroed(|s.free|) <= k < |s.free| && Allocated(s, k) :: junk[k] == NULL
  {
    var r := Step(s, Enter(t, junk));
    forall k | 0 <= k < |s.free|
      ensures GetSpecific(r, t, k) == if Allocated(s, k) && Zeroed(|s.free|) <= k then junk[k] else NULL
    {
    }
  }
}
