/**
 The wake-up protocol between any number of posting threads and the thread that reads the
 queue: a poster changes the queue under the lock, and only after unlocking looks at the
 semaphore and posts it if it was not positive; the reader peeks under the lock and, when it
 found nothing, waits on the semaphore. Each step below is one critical section or one
 semaphore operation.
 */
module WakeUp {
  import opened Messages
  import opened QueueState

  // Outside POST_MSGQ; between the unlock and sem_getvalue; between sem_getvalue and sem_post.
  datatype Poster = Idle | Unlocked | MustPost

  // In the peek loop or handling a message; found nothing and about to wait.
  datatype Reader = Looking | Waiting

  // `f` is the filter of the reader's last peek; `polls` says that the queue has an idle
  // handler, so that a failing trywait goes on.
  datatype State = State(q: QState, sem: nat, posters: seq<Poster>, reader: Reader, f: Filter,
                         isDesktop: bool, polls: bool)

  datatype Event =
    | Change(i: nat, op: QOp)
    | Full(i: nat, m: Msg)
    | Look(i: nat)
    | PostSem(i: nat)
    | Discard(op: QOp)
    | OwnChange(op: QOp)
    | Peek(hwnd: Hwnd, f: Filter, remove: bool, w: World)
    | TakeSem
    | IdleRound

  // The changes after which POST_MSGQ runs. A queueing that fails does not get there.
  predicate IsPosting(q: QState, op: QOp) {
    match op
    case OpQueue(m) => QueueMsg(q, m).1
    case OpNotify(_) => true
    case OpPriorNotify(_) => true
    case OpSync(_) => true
    case OpPaint => true
    case OpQuit => true
    case OpDeskTimer => true
    case OpExpire(_) => true
    case _ => false
  }

  predicate Enabled(s: State, e: Event)
    requires QueueState.Inv(s.q)
  {
    match e
    case Change(i, op) => i < |s.posters| && s.posters[i] == Idle && QueueState.Enabled(s.q, op) && IsPosting(s.q, op)
    case Full(i, m) => i < |s.posters| && s.posters[i] == Idle && !QueueMsg(s.q, m).1
    case Look(i) => i < |s.posters| && s.posters[i] == Unlocked
    case PostSem(i) => i < |s.posters| && s.posters[i] == MustPost
    case Discard(op) => op.OpThrowAway? && QueueState.Enabled(s.q, op)
    case OwnChange(op) => s.reader == Looking && QueueState.Enabled(s.q, op)
    case Peek(_, _, _, w) => s.reader == Looking && w.isDesktop == s.isDesktop
    case TakeSem => s.reader == Waiting && s.sem > 0
    case IdleRound => s.reader == Waiting && s.sem == 0 && s.polls
  }

  function Step(s: State, e: Event): State
    requires QueueState.Inv(s.q) && Enabled(s, e)
  {
    match e
    case Change(i, op) => s.(q := QueueState.Step(s.q, op), posters := s.posters[i := Unlocked])
    case Full(i, m) => s.(q := QueueMsg(s.q, m).0)
    case Look(i) => s.(posters := s.posters[i := if s.sem <= 0 then MustPost else Idle])
    case PostSem(i) => s.(sem := s.sem + 1, posters := s.posters[i := Idle])
    case Discard(op) => s.(q := QueueState.Step(s.q, op))
    case OwnChange(op) => s.(q := QueueState.Step(s.q, op))
    case Peek(hwnd, f, remove, w) =>
      var (q, out) := PeekPass(s.q, hwnd, f, remove, w);
      s.(q := q, f := f, reader := if out == Nothing then Waiting else Looking)
    case TakeSem => s.(sem := s.sem - 1, reader := Looking)
    case IdleRound => s.(reader := Looking)
  }

  function PendingPosts(posters: seq<Poster>): (n: nat)
    ensures n <= |posters|
  {
    if posters == [] then 0
    else PendingPosts(posters[..|posters| - 1]) + if posters[|posters| - 1] == MustPost then 1 else 0
  }

  lemma {:induction false} PendingAfter(posters: seq<Poster>, i: nat, p: Poster)
    requires i < |posters|
    ensures PendingPosts(posters[i := p])
         == PendingPosts(posters) - (if posters[i] == MustPost then 1 else 0) + (if p == MustPost then 1 else 0)
  {
    var n := |posters| - 1;
    if i < n {
      PendingAfter(posters[..n], i, p);
      assert posters[i := p][..n] == posters[..n][i := p];
    } else {
      assert posters[i := p][..n] == posters[..n];
    }
  }

  ghost predicate SomeoneUnderWay(s: State) {
    s.sem > 0 || exists i :: 0 <= i < |s.posters| && s.posters[i] != Idle
  }

  ghost predicate Inv(s: State) {
    && QueueState.Inv(s.q)
    && s.sem + PendingPosts(s.posters) <= |s.posters|
    && (s.reader == Waiting && Ready(s.q, s.f, s.isDesktop) ==> SomeoneUnderWay(s))
  }

  // Throwing a window's messages away while the reader waits brings a wanted message to the
  // front that nobody will signal: the one that kept it back is gone.
  ghost predicate Loses(s: State, e: Event)
    requires QueueState.Inv(s.q) && Enabled(s, e)
  {
    && e.Discard? && s.reader == Waiting && !SomeoneUnderWay(s)
    && Exposes(s.q, e.op, s.f)
  }

  // The first of the remaining messages of some container passes the filter.
  predicate Exposes(q: QState, op: QOp, f: Filter)
    requires op.OpThrowAway?
  {
    || FrontWanted(Keep(op.ws, op.target, q.notify), f)
    || FrontWanted(Keep(op.ws, op.target, q.post), f)
    || (op.sync != [] && Wants(f, op.sync[0].msg.message))
  }

  // Nothing else makes throwing away ready a queue that was not.
  lemma DiscardReadiesExactly(q: QState, op: QOp, f: Filter, isDesktop: bool)
    requires QueueState.Inv(q) && op.OpThrowAway? && QueueState.Enabled(q, op) && !Ready(q, f, isDesktop)
    ensures Ready(QueueState.Step(q, op), f, isDesktop) <==> Exposes(q, op, f)
  {
    hide Keep, BelongsTo, Wants;
  }

  // Without a filter there is nothing to expose.
  lemma UnfilteredNeverExposes(q: QState, op: QOp)
    requires op.OpThrowAway? && QueueState.Enabled(q, op) && q.sync == [] && q.notify == [] && q.post == []
    ensures !Exposes(q, op, UNFILTERED)
  {
  }

  lemma StepKeepsQueueInv(s: State, e: Event)
    requires QueueState.Inv(s.q) && Enabled(s, e)
    ensures QueueState.Inv(Step(s, e).q)
  {
    hide QueueState.Step, QueueState.Inv, PeekPass, Ready;
    match e
    case Change(_, op) => QueueState.StepKeepsInv(s.q, op);
    case Discard(op) => QueueState.StepKeepsInv(s.q, op);
    case OwnChange(op) => QueueState.StepKeepsInv(s.q, op);
    case Peek(hwnd, f, remove, w) => PeekKeepsInv(s.q, hwnd, f, remove, w);
    case _ =>
  }

  lemma StepKeepsBound(s: State, e: Event)
    requires Inv(s) && Enabled(s, e)
    ensures Step(s, e).sem + PendingPosts(Step(s, e).posters) <= |Step(s, e).posters| == |s.posters|
  {
    hide QueueState.Step, QueueState.Inv, PeekPass, Ready;
    match e
    case Change(i, _) => PendingAfter(s.posters, i, Unlocked);
    case Look(i) => PendingAfter(s.posters, i, if s.sem <= 0 then MustPost else Idle);
    case PostSem(i) => PendingAfter(s.posters, i, Idle);
    case _ =>
  }

  // A step keeps the invariant if and only if it does not expose a message to a sleeper.
  lemma StepKeepsExactly(s: State, e: Event)
    requires Inv(s) && Enabled(s, e)
    ensures Inv(Step(s, e)) <==> !Loses(s, e)
  {
    hide QueueState.Step, QueueState.Inv, PeekPass, Ready, Exposes;
    StepKeepsQueueInv(s, e);
    StepKeepsBound(s, e);
    var s' := Step(s, e);
    match e
    case Change(i, _) => assert s'.posters[i] != Idle;
    case Look(i) =>
      if s.sem <= 0 { assert s'.posters[i] != Idle; }
    case Discard(op) => if !Ready(s.q, s.f, s.isDesktop) { DiscardReadiesExactly(s.q, op, s.f, s.isDesktop); }
    case Peek(hwnd, f, remove, w) => PeekKeepsInv(s.q, hwnd, f, remove, w);
    case _ =>
  }

  // After a poster's critical section a peek without a filter comes back with something, and
  // the poster is on its way to the semaphore.
  lemma ChangeMakesWork(s: State, i: nat, op: QOp)
    requires QueueState.Inv(s.q) && Enabled(s, Change(i, op)) && (op.OpDeskTimer? ==> s.isDesktop)
    ensures HasWork(Step(s, Change(i, op)).q, s.isDesktop) && Step(s, Change(i, op)).posters[i] == Unlocked
  {
    if op.OpExpire? {
      assert QueueState.Step(s.q, op).mask[op.slot];
    }
  }

  ghost predicate IsRun(states: seq<State>, events: seq<Event>) {
    && |states| == |events| + 1
    && QueueState.Inv(states[0].q) && states[0].sem == 0 && states[0].reader == Looking
    && (forall i | 0 <= i < |states[0].posters| :: states[0].posters[i] == Idle)
    && forall i | 0 <= i < |events| ::
         QueueState.Inv(states[i].q) ==> Enabled(states[i], events[i]) && states[i + 1] == Step(states[i], events[i])
  }

  lemma {:induction false} NothingPending(posters: seq<Poster>)
    requires forall i | 0 <= i < |posters| :: posters[i] == Idle
    ensures PendingPosts(posters) == 0
  {
    if posters != [] { NothingPending(posters[..|posters| - 1]); }
  }

  // In every interleaving without such a step: if the reader found nothing for its filter and
  // a peek would now, the semaphore is positive or some poster has yet to look at it or to post
  // it; and the semaphore never exceeds the number of posters.
  lemma {:induction false} NoLostWakeUp(states: seq<State>, events: seq<Event>, n: nat)
    requires IsRun(states, events) && n <= |events|
    requires forall i | 0 <= i < n && QueueState.Inv(states[i].q) && Enabled(states[i], events[i]) ::
               !Loses(states[i], events[i])
    ensures Inv(states[n])
  {
    if n == 0 {
      NothingPending(states[0].posters);
    } else {
      hide Loses, Enabled, Step, Ready, QueueState.Inv, SomeoneUnderWay;
      NoLostWakeUp(states, events, n - 1);
      StepKeepsExactly(states[n - 1], events[n - 1]);
    }
  }

  function Times(events: seq<Event>, n: nat, posts: bool): nat
    requires n <= |events|
  {
    if n == 0 then 0
    else Times(events, n - 1, posts) + if (if posts then events[n - 1].PostSem? else events[n - 1].TakeSem?) then 1 else 0
  }

  // In every run, lost wake-ups or not, the semaphore is what was posted less what was taken.
  lemma {:induction false} SemIsPostsLessTakes(states: seq<State>, events: seq<Event>, n: nat)
    requires IsRun(states, events) && n <= |events|
    ensures QueueState.Inv(states[n].q)
    ensures states[n].sem == Times(events, n, true) - Times(events, n, false)
  {
    if n > 0 {
      SemIsPostsLessTakes(states, events, n - 1);
      StepKeepsQueueInv(states[n - 1], events[n - 1]);
      hide QueueState.Inv, QueueState.Step, PeekPass, Ready;
    }
  }

  // A reader that never filters is never lost.
  lemma {:induction false} UnfilteredNeverLost(states: seq<State>, events: seq<Event>, n: nat)
    requires IsRun(states, events) && n <= |events| && states[0].f == UNFILTERED
    requires forall i | 0 <= i < |events| && events[i].Peek? :: events[i].f == UNFILTERED
    ensures Inv(states[n]) && states[n].f == UNFILTERED
  {
    if n == 0 {
      NothingPending(states[0].posters);
    } else {
      UnfilteredNeverLost(states, events, n - 1);
      var s, e := states[n - 1], events[n - 1];
      StepKeepsExactly(s, e);
      NotLost(s, e);
      hide Loses, QueueState.Step, Ready, QueueState.Inv, SomeoneUnderWay, PeekPass;
    }
  }

  lemma NotLost(s: State, e: Event)
    requires Inv(s) && Enabled(s, e) && s.f == UNFILTERED
    ensures !Loses(s, e)
  {
    if e.Discard? && s.reader == Waiting && !SomeoneUnderWay(s) {
      UnfilteredIsWork(s.q, s.isDesktop);
      UnfilteredNeverExposes(s.q, e.op);
    }
  }

  // Poster `i` is under way, and its own one or two steps let the reader take the semaphore.
  ghost predicate Wakes(s: State, i: nat)
    requires QueueState.Inv(s.q)
  {
    && i < |s.posters| && s.posters[i] != Idle
    && var t := if s.posters[i] == Unlocked then Step(s, Look(i)) else s;
       Enabled(t, PostSem(i)) && Enabled(Step(t, PostSem(i)), TakeSem)
  }

  // A reader that is asleep although a peek would come back with something is woken.
  lemma SleeperIsWoken(s: State)
    requires Inv(s) && s.reader == Waiting && s.sem == 0 && Ready(s.q, s.f, s.isDesktop)
    ensures exists i: nat :: Wakes(s, i)
  {
    hide QueueState.Inv, Ready;
    var i :| 0 <= i < |s.posters| && s.posters[i] != Idle;
    assert Wakes(s, i);
  }

  // A reader with an idle handler is never asleep: it takes the semaphore or goes round.
  lemma PollingReaderGoesOn(s: State)
    requires QueueState.Inv(s.q) && s.reader == Waiting && s.polls
    ensures var e := if s.sem > 0 then TakeSem else IdleRound;
      Enabled(s, e) && Step(s, e).reader == Looking && Step(s, e).q == s.q
  {
  }

  // After a losing step the reader can only go on when somebody else posts.
  lemma LoserSleeps(s: State, e: Event)
    requires Inv(s) && Enabled(s, e) && Loses(s, e)
    ensures var t := Step(s, e);
      && QueueState.Inv(t.q) && t.reader == Waiting && Ready(t.q, t.f, t.isDesktop)
      && !Enabled(t, TakeSem) && forall i: nat :: !Enabled(t, Look(i)) && !Enabled(t, PostSem(i))
  {
    hide Exposes;
    StepKeepsQueueInv(s, e);
    DiscardReadiesExactly(s.q, e.op, s.f, s.isDesktop);
    hide QueueState.Step, QueueState.Inv, Ready;
  }
}
