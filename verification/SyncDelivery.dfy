/**
 The owner of a queue and its senders together: peeks that go round several times and may be
 nested, the messages they hand out with their pSyncMsg fields, and the dispatches that answer
 whatever node the field names.
 */
module SyncDelivery {
  import opened Common
  import opened Messages
  import opened QueueState
  import opened SyncMessages

  // A PeekMessageEx under way, with the pSyncMsg field of the message it is to fill in.
  datatype Peeking = Peeking(hwnd: Hwnd, f: Filter, remove: bool, waits: bool, pad: Option<nat>)

  // `peeks` are the nested peeks, innermost last; `hand` holds the nodes named by messages that
  // were removed from the queue and not yet dispatched.
  datatype State = State(q: QState, sync: SyncState, peeks: seq<Peeking>, hand: seq<nat>)

  datatype Event =
    | Send(m: Msg)
    | Call(hwnd: Hwnd, f: Filter, remove: bool, waits: bool)
    | Pass(w: World)
    | Dispatch(i: nat, answer: Answer)
    | Ignore(i: nat)
    | Drain
    | Wake(id: nat)
    | Empty
    | Throw(ws: Windows, target: Hwnd, n: nat)
    | Other(op: QOp)

  // Everything that leaves the sync list alone.
  predicate IsOther(op: QOp) {
    !op.OpSync? && !op.OpPeek? && !op.OpDrainSync? && !op.OpThrowAway? && !op.OpEmpty?
  }

  // The chain numbers the entries of the queue's sync list.
  predicate Coupled(s: State) {
    && |s.sync.chain| == |s.q.sync|
    && forall i | 0 <= i < |s.q.sync| :: s.sync.chain[i] == s.q.sync[i].id < |s.sync.phases|
  }

  predicate InStep(s: State) {
    && QueueState.Inv(s.q) && Coupled(s)
    && (forall i | 0 <= i < |s.hand| :: s.hand[i] < |s.sync.phases|)
    && (forall i | 0 <= i < |s.peeks| && s.peeks[i].pad.Some? :: s.peeks[i].pad.value < |s.sync.phases|)
  }

  // Throwing away a window's messages is taken here with the matching senders at the front.
  predicate Enabled(s: State, e: Event) {
    match e
    case Send(_) => true
    case Call(_, _, _, _) => true
    case Pass(_) => s.peeks != []
    case Dispatch(i, _) => i < |s.hand|
    case Ignore(i) => i < |s.hand|
    case Drain => SyncFlag in s.q.flags
    case Wake(id) => SyncMessages.Enabled(s.sync, SyncOp.Wake(id))
    case Empty => true
    case Throw(ws, target, n) =>
      n <= |s.q.sync| && forall i | 0 <= i < |s.q.sync| :: BelongsTo(ws, s.q.sync[i].msg.hwnd, target) <==> i < n
    case Other(op) => IsOther(op) && QueueState.Enabled(s.q, op)
  }

  function AfterPass(s: State, w: World): (t: State)
    requires InStep(s) && s.peeks != []
  {
    var n := |s.peeks| - 1;
    var p := s.peeks[n];
    var (q, out) := PeekPass(s.q, p.hwnd, p.f, p.remove, w);
    var pad := Pad(s.q, p.f, w, p.pad);
    var taken := out.Deliver? && out.isSync && p.remove && s.q.sync != [];
    var goesOn := out.CallTimer? || (out == Nothing && p.waits);
    State(q, if taken then AfterPeek(s.sync) else s.sync,
          if goesOn then s.peeks[n := p.(pad := pad)] else s.peeks[..n],
          if out.Deliver? && p.remove && pad.Some? then s.hand + [pad.value] else s.hand)
  }

  // One round of the drain takes the first sender's message to dispatch it next.
  function AfterDrain(s: State): State
    requires InStep(s)
  {
    var t := s.(q := DrainSync(s.q));
    if SyncFlag in s.q.flags && s.q.sync != [] then
      t.(sync := AfterPeek(s.sync), hand := s.hand + [s.sync.chain[0]])
    else t
  }

  // The first n senders cancelled.
  function CancelFront(sync: SyncState, n: nat): SyncState
    requires n <= |sync.chain|
  {
    SyncState(sync.chain[n..], CancelIn(sync.phases, sync.chain[..n]))
  }

  function Step(s: State, e: Event): State
    requires InStep(s) && Enabled(s, e)
  {
    match e
    case Send(m) => s.(q := QueueSync(s.q, SyncEntry(|s.sync.phases|, m)), sync := AfterSend(s.sync))
    case Call(hwnd, f, remove, waits) => s.(peeks := s.peeks + [Peeking(hwnd, f, remove, waits, None)])
    case Pass(w) => AfterPass(s, w)
    case Dispatch(i, answer) =>
      s.(sync := AfterDispatch(s.sync, s.hand[i], answer), hand := s.hand[..i] + s.hand[i + 1..])
    case Ignore(i) => s.(sync := AfterIgnore(s.sync, s.hand[i]), hand := s.hand[..i] + s.hand[i + 1..])
    case Drain => AfterDrain(s)
    case Wake(id) => s.(sync := AfterWake(s.sync, id))
    case Empty => s.(q := QueueState.Empty(s.q), sync := AfterCancelAll(s.sync))
    case Throw(ws, target, n) =>
      s.(q := QueueState.ThrowAway(s.q, ws, target, s.q.sync[n..]), sync := CancelFront(s.sync, n))
    case Other(op) => s.(q := QueueState.Step(s.q, op))
  }

  // ---- the invariant -------------------------------------------------------------------

  // The messages in hand name exactly the senders that were taken out and not yet answered,
  // each once.
  ghost predicate HandRight(sync: SyncState, hand: seq<nat>) {
    && (forall i, j | 0 <= i < j < |hand| :: hand[i] != hand[j])
    && (forall id: nat | id < |sync.phases| :: sync.phases[id].Held? <==> id in hand)
  }

  ghost predicate Inv(s: State) {
    InStep(s) && SyncMessages.Inv(s.sync) && HandRight(s.sync, s.hand)
  }

  // What the pass of the innermost peek would wrongly name.
  predicate Misnames(s: State, e: Event) {
    && e.Pass? && s.peeks != []
    && var p := s.peeks[|s.peeks| - 1];
       p.remove && Inherits(s.q, p.f, e.w, p.pad)
  }

  lemma PadInRange(q: QState, f: Filter, w: World, pad: Option<nat>, n: nat)
    requires QueueState.Inv(q) && (pad.Some? ==> pad.value < n) && forall i | 0 <= i < |q.sync| :: q.sync[i].id < n
    ensures Pad(q, f, w, pad).Some? ==> Pad(q, f, w, pad).value < n
  {
    hide PeekTimer;
  }

  // What a pass does to the sync list.
  lemma PassTakes(q: QState, hwnd: Hwnd, f: Filter, remove: bool, w: World)
    requires QueueState.Inv(q)
    ensures var (p, out) := PeekPass(q, hwnd, f, remove, w);
      && QueueState.Inv(p)
      && (out.Deliver? && out.isSync ==> q.sync != [])
      && p.sync == if out.Deliver? && out.isSync && remove then q.sync[1..] else q.sync
  {
    QueueState.PeekKeepsInv(q, hwnd, f, remove, w);
    if QuitFlag !in q.flags {
      hide PeekPass, Wants, AnyExpired;
      PeekTakesFirst(q, hwnd, f, remove, w);
    }
  }

  lemma PassStaysInStep(s: State, w: World)
    requires InStep(s) && s.peeks != []
    ensures InStep(AfterPass(s, w))
  {
    var p := s.peeks[|s.peeks| - 1];
    PassTakes(s.q, p.hwnd, p.f, p.remove, w);
    PadInRange(s.q, p.f, w, p.pad, |s.sync.phases|);
    hide PeekPass, Pad, QueueState.Inv;
  }

  lemma StepStaysInStep(s: State, e: Event)
    requires InStep(s) && Enabled(s, e)
    ensures InStep(Step(s, e))
  {
    hide AfterPass, QueueState.Step;
    match e
    case Pass(w) => PassStaysInStep(s, w);
    case Throw(ws, target, n) => ThrowStaysInStep(s, ws, target, n);
    case Other(op) => OtherStaysInStep(s, op);
    case _ =>
  }

  lemma ThrowStaysInStep(s: State, ws: Windows, target: Hwnd, n: nat)
    requires InStep(s) && Enabled(s, Throw(ws, target, n))
    ensures InStep(s.(q := QueueState.ThrowAway(s.q, ws, target, s.q.sync[n..]), sync := CancelFront(s.sync, n)))
  {
    ThrowKeepsQueue(s.q, ws, target, n);
    hide QueueState.Inv, Keep, QueueState.ClearTimers, BelongsTo;
  }

  lemma ThrowKeepsQueue(q: QState, ws: Windows, target: Hwnd, n: nat)
    requires QueueState.Inv(q) && n <= |q.sync|
    ensures QueueState.Inv(QueueState.ThrowAway(q, ws, target, q.sync[n..]))
  {
    QueueState.StepKeepsInv(q, OpThrowAway(ws, target, q.sync[n..]));
    hide QueueState.Inv, Keep, QueueState.ClearTimers, BelongsTo;
  }

  lemma OtherStaysInStep(s: State, op: QOp)
    requires InStep(s) && IsOther(op) && QueueState.Enabled(s.q, op)
    ensures InStep(s.(q := QueueState.Step(s.q, op)))
  {
    QueueState.StepKeepsInv(s.q, op);
    hide QueueState.Inv;
  }

  // Taking the first sender's message in hand.
  lemma TakeKeepsRight(sync: SyncState, hand: seq<nat>)
    requires SyncMessages.Inv(sync) && HandRight(sync, hand) && sync.chain != []
    ensures SyncMessages.Enabled(sync, PeekRemove) && SyncMessages.Inv(AfterPeek(sync))
    ensures HandRight(AfterPeek(sync), hand + [sync.chain[0]])
  {
    SyncMessages.PeekKeepsInv(sync);
  }

  lemma DropKeepsRight(sync: SyncState, hand: seq<nat>, i: nat, p: Phase)
    requires HandRight(sync, hand) && i < |hand| && hand[i] < |sync.phases| && !p.Held?
    ensures sync.phases[hand[i]].Held?
    ensures HandRight(sync.(phases := sync.phases[hand[i] := p]), hand[..i] + hand[i + 1..])
  {
    assert hand[i] in hand;
    var left := hand[..i] + hand[i + 1..];
    forall id | id in hand && id != hand[i] ensures id in left {
      var j :| 0 <= j < |hand| && hand[j] == id;
      assert id == left[if j < i then j else j - 1];
    }
  }

  lemma OneMoreIsWrong(sync: SyncState, hand: seq<nat>, id: nat)
    requires HandRight(sync, hand) && id < |sync.phases|
    ensures !HandRight(sync, hand + [id])
  {
    var more := hand + [id];
    assert more[|hand|] == id;
    if id in hand {
      var i :| 0 <= i < |hand| && hand[i] == id;
      assert more[i] == id;
    }
  }

  // A pass keeps the invariant if and only if it names the right node.
  lemma PassSafeExactly(s: State, w: World)
    requires Inv(s) && s.peeks != []
    ensures Inv(AfterPass(s, w)) <==> !Misnames(s, Pass(w))
  {
    var p := s.peeks[|s.peeks| - 1];
    PassStaysInStep(s, w);
    PassTakes(s.q, p.hwnd, p.f, p.remove, w);
    PadInRange(s.q, p.f, w, p.pad, |s.sync.phases|);
    NodeRightExactly(s.q, p.hwnd, p.f, p.remove, w, p.pad);
    if s.sync.chain != [] { TakeKeepsRight(s.sync, s.hand); }
    var out, pad := PeekPass(s.q, p.hwnd, p.f, p.remove, w).1, Pad(s.q, p.f, w, p.pad);
    if Misnames(s, Pass(w)) {
      InheritIsNotSync(s.q, p.hwnd, p.f, p.remove, w, p.pad);
      hide PeekPass, Pad, Inherits, QueueState.Inv, SyncMessages.Inv, HandRight;
      OneMoreIsWrong(s.sync, s.hand, pad.value);
    } else {
      hide PeekPass, Pad, Inherits, QueueState.Inv, SyncMessages.Inv, HandRight;
    }
  }

  lemma InheritIsNotSync(q: QState, hwnd: Hwnd, f: Filter, remove: bool, w: World, pad: Option<nat>)
    requires QueueState.Inv(q) && Inherits(q, f, w, pad)
    ensures PeekPass(q, hwnd, f, remove, w).1.Deliver? && !PeekPass(q, hwnd, f, remove, w).1.isSync
    ensures Pad(q, f, w, pad).Some?
  {
    NodeRightExactly(q, hwnd, f, remove, w, pad);
    PeekTakesFirst(q, hwnd, f, remove, w);
    hide PeekPass, Pad;
  }

  lemma AnsweredKeepsInv(s: State, i: nat, op: SyncOp, p: Phase)
    requires SyncMessages.Inv(s.sync) && HandRight(s.sync, s.hand) && i < |s.hand| && s.hand[i] < |s.sync.phases|
    requires op == SyncOp.Ignore(s.hand[i]) || (op.Dispatch? && op.id == s.hand[i])
    requires !p.Held? && SyncMessages.Step(s.sync, op) == s.sync.(phases := s.sync.phases[s.hand[i] := p])
    ensures SyncMessages.Inv(SyncMessages.Step(s.sync, op))
    ensures HandRight(SyncMessages.Step(s.sync, op), s.hand[..i] + s.hand[i + 1..])
  {
    DropKeepsRight(s.sync, s.hand, i, p);
    hide HandRight;
    SyncMessages.StepKeepsInv(s.sync, op);
  }

  lemma DispatchKeepsInv(s: State, i: nat, answer: Answer)
    requires Inv(s) && i < |s.hand|
    ensures Inv(Step(s, Event.Dispatch(i, answer)))
  {
    StepStaysInStep(s, Event.Dispatch(i, answer));
    AnsweredKeepsInv(s, i, SyncOp.Dispatch(s.hand[i], answer), Answered(s.sync.phases[s.hand[i]], answer));
    hide InStep, HandRight, SyncMessages.Inv;
  }

  lemma IgnoreKeepsInv(s: State, i: nat)
    requires Inv(s) && i < |s.hand|
    ensures Inv(Step(s, Event.Ignore(i)))
  {
    StepStaysInStep(s, Event.Ignore(i));
    DropKeepsRight(s.sync, s.hand, i, Ignored);
    AnsweredKeepsInv(s, i, SyncOp.Ignore(s.hand[i]), Ignored);
    hide InStep, HandRight, SyncMessages.Inv;
  }

  lemma DrainKeepsInv(s: State)
    requires Inv(s) && SyncFlag in s.q.flags
    ensures Inv(Step(s, Drain))
  {
    StepStaysInStep(s, Drain);
    if s.sync.chain != [] { TakeKeepsRight(s.sync, s.hand); }
    hide HandRight, SyncMessages.Inv, QueueState.Inv;
  }

  lemma SendKeepsInv(s: State, m: Msg)
    requires Inv(s)
    ensures Inv(Step(s, Event.Send(m)))
  {
    StepStaysInStep(s, Event.Send(m));
    SyncMessages.SendKeepsInv(s.sync);
    hide SyncMessages.Inv, QueueState.Inv;
  }

  lemma WakeKeepsInv(s: State, id: nat)
    requires Inv(s) && SyncMessages.Enabled(s.sync, SyncOp.Wake(id))
    ensures Inv(Step(s, Event.Wake(id)))
  {
    StepStaysInStep(s, Event.Wake(id));
    SyncMessages.StepKeepsInv(s.sync, SyncOp.Wake(id));
    hide SyncMessages.Inv, InStep;
  }

  lemma EmptyKeepsInv(s: State)
    requires Inv(s)
    ensures Inv(Step(s, Empty))
  {
    StepStaysInStep(s, Empty);
    SyncMessages.CancelKeepsInv(s.sync);
    hide SyncMessages.Inv, InStep;
  }

  lemma ThrowKeepsInv(s: State, ws: Windows, target: Hwnd, n: nat)
    requires Inv(s) && Enabled(s, Throw(ws, target, n))
    ensures Inv(Step(s, Throw(ws, target, n)))
  {
    StepStaysInStep(s, Throw(ws, target, n));
    CancelFrontKeepsInv(s.sync, s.hand, n);
    hide SyncMessages.Inv, HandRight, QueueState.Inv, CancelFront, BelongsTo;
  }

  lemma CancelFrontKeepsInv(sync: SyncState, hand: seq<nat>, n: nat)
    requires SyncMessages.Inv(sync) && HandRight(sync, hand) && n <= |sync.chain|
    ensures SyncMessages.Inv(CancelFront(sync, n)) && HandRight(CancelFront(sync, n), hand)
  {
    var front, left := sync.chain[..n], sync.chain[n..];
    forall id: nat | id < |sync.phases| ensures id in sync.chain <==> id in front || id in left {
      assert sync.chain == front + left;
    }
    forall id | id in front ensures id !in left {
      assert id in sync.chain;
    }
  }

  lemma StepKeepsInv(s: State, e: Event)
    requires Inv(s) && Enabled(s, e) && !Misnames(s, e)
    ensures Inv(Step(s, e))
  {
    hide InStep, SyncMessages.Inv, HandRight, Misnames, AfterPass, AfterDrain;
    StepStaysInStep(s, e);
    match e
    case Send(m) => SendKeepsInv(s, m);
    case Pass(w) => PassKeepsInv(s, w);
    case Dispatch(i, answer) => DispatchKeepsInv(s, i, answer);
    case Ignore(i) => IgnoreKeepsInv(s, i);
    case Drain => DrainKeepsInv(s);
    case Wake(id) => WakeKeepsInv(s, id);
    case Empty => EmptyKeepsInv(s);
    case Throw(ws, target, n) => ThrowKeepsInv(s, ws, target, n);
    case _ =>
  }

  lemma PassKeepsInv(s: State, w: World)
    requires Inv(s) && s.peeks != [] && !Misnames(s, Pass(w))
    ensures Inv(AfterPass(s, w))
  {
    PassSafeExactly(s, w);
  }

  // ---- theorems ------------------------------------------------------------------------

  function Start(capacity: nat, timers: nat): State {
    State(InitQueue(capacity, timers), INITIAL, [], [])
  }

  ghost predicate IsRun(states: seq<State>, events: seq<Event>) {
    && |states| == |events| + 1
    && (exists capacity: nat, timers: nat :: timers > 0 && states[0] == Start(capacity, timers))
    && forall i | 0 <= i < |events| ::
         InStep(states[i]) ==> Enabled(states[i], events[i]) && states[i + 1] == Step(states[i], events[i])
  }

  lemma StartInv(capacity: nat, timers: nat)
    requires timers > 0
    ensures Inv(Start(capacity, timers))
  {
  }

  // As long as no pass misnames a node, every sender is released by exactly one post, and only
  // when its node is out of the list.
  lemma {:induction false} SendersReleasedOnce(states: seq<State>, events: seq<Event>, n: nat)
    requires IsRun(states, events) && n <= |events|
    requires forall i | 0 <= i < n :: !Misnames(states[i], events[i])
    ensures Inv(states[n]) && Sound(states[n].sync)
  {
    hide SyncMessages.Inv, HandRight, Step, Enabled, Misnames, Sound;
    if n == 0 {
      var capacity: nat, timers: nat :| timers > 0 && states[0] == Start(capacity, timers);
      StartInv(capacity, timers);
    } else {
      SendersReleasedOnce(states, events, n - 1);
      StepKeepsInv(states[n - 1], events[n - 1]);
    }
    InvIsSound(states[n].sync);
  }

  // In every run the messages in hand name exactly the senders still to be answered if and
  // only if no pass inherits a node.
  lemma {:induction false} HandRightExactly(states: seq<State>, events: seq<Event>)
    requires IsRun(states, events)
    ensures (forall n | 0 <= n < |states| :: Inv(states[n]))
       <==> (forall i | 0 <= i < |events| :: !Misnames(states[i], events[i]))
  {
    hide InStep, SyncMessages.Inv, HandRight, Step, Misnames, Enabled;
    if forall i | 0 <= i < |events| :: !Misnames(states[i], events[i]) {
      forall n | 0 <= n < |states| ensures Inv(states[n]) {
        SendersReleasedOnce(states, events, n);
      }
    }
    if forall n | 0 <= n < |states| :: Inv(states[n]) {
      forall i | 0 <= i < |events| ensures !Misnames(states[i], events[i]) {
        assert Inv(states[i]) && Inv(states[i + 1]);
        MisnamingBreaks(states[i], events[i]);
      }
    }
  }

  lemma MisnamingBreaks(s: State, e: Event)
    requires Inv(s) && Enabled(s, e)
    ensures Misnames(s, e) ==> !Inv(Step(s, e))
  {
    if Misnames(s, e) { PassSafeExactly(s, e.w); }
  }

  // The return value that a released sender will take home never changes.
  lemma AnswerKept(s: State, e: Event, id: nat)
    requires Inv(s) && Enabled(s, e) && !Misnames(s, e) && Released(s.sync, id)
    ensures Released(Step(s, e).sync, id) && Step(s, e).sync.phases[id].answer == s.sync.phases[id].answer
  {
    hide PeekPass, Pad, SyncMessages.Inv, HandRight;
    match e
    case Send(_) => SyncMessages.AnswerStays(s.sync, SyncOp.Send, id);
    case Pass(w) => if s.sync.chain != [] { SyncMessages.AnswerStays(s.sync, PeekRemove, id); }
    case Dispatch(i, answer) =>
      DropKeepsRight(s.sync, s.hand, i, Ignored);
      SyncMessages.AnswerStays(s.sync, SyncOp.Dispatch(s.hand[i], answer), id);
    case Ignore(i) => SyncMessages.AnswerStays(s.sync, SyncOp.Ignore(s.hand[i]), id);
    case Drain => if s.sync.chain != [] { SyncMessages.AnswerStays(s.sync, PeekRemove, id); }
    case Wake(k) => SyncMessages.AnswerStays(s.sync, SyncOp.Wake(k), id);
    case Empty => SyncMessages.AnswerStays(s.sync, CancelAll, id);
    case Throw(_, _, n) => InvIsSound(s.sync);
    case _ =>
  }

  lemma {:induction false} AnswerIsFinal(states: seq<State>, events: seq<Event>, id: nat, i: nat, j: nat)
    requires IsRun(states, events) && i <= j <= |events| && Released(states[i].sync, id)
    requires forall k | 0 <= k < j :: !Misnames(states[k], events[k])
    ensures Released(states[j].sync, id) && states[j].sync.phases[id].answer == states[i].sync.phases[id].answer
  {
    if i < j {
      hide SyncMessages.Inv, HandRight, Step, Enabled, Misnames, Released;
      AnswerIsFinal(states, events, id, i, j - 1);
      SendersReleasedOnce(states, events, j - 1);
      AnswerKept(states[j - 1], events[j - 1], id);
    }
  }

  // The sender named by a dispatched message takes home the value of that very dispatch.
  lemma DispatchedAnswer(states: seq<State>, events: seq<Event>, i: nat, j: nat)
    requires IsRun(states, events) && i < j <= |events| && events[i].Dispatch?
    requires forall k | 0 <= k < j :: !Misnames(states[k], events[k])
    ensures events[i].i < |states[i].hand|
    ensures Released(states[j].sync, states[i].hand[events[i].i])
    ensures states[j].sync.phases[states[i].hand[events[i].i]].answer == events[i].answer
  {
    SendersReleasedOnce(states, events, i);
    var s, e := states[i], events[i];
    DropKeepsRight(s.sync, s.hand, e.i, Ignored);
    AnsweredNow(s, e.i, e.answer);
    AnswerIsFinal(states, events, s.hand[e.i], i + 1, j);
  }

  lemma AnsweredNow(s: State, i: nat, answer: Answer)
    requires Inv(s) && i < |s.hand|
    ensures Step(s, Event.Dispatch(i, answer)).sync.phases[s.hand[i]] == Posted(answer, 1)
  {
    DropKeepsRight(s.sync, s.hand, i, Ignored);
    hide SyncMessages.Inv, QueueState.Inv;
  }

  ghost predicate Leads(s: State, e: Event, t: State) {
    InStep(s) && Enabled(s, e) && t == Step(s, e)
  }

  // What comes of naming an unwanted sender: when the desktop time-out is dispatched, the
  // sender is released although its node is still the first in the list; when the owner's
  // next drain comes to that node, the sender is posted a second time.
  lemma MisnamedIsPostedTwice(s: State, w: World, a: Answer, b: Answer) returns (t: State, u: State, v: State, x: State)
    requires Inv(s) && Misnames(s, Pass(w)) && s.q.sync != []
    ensures Leads(s, Pass(w), t) && Leads(t, Event.Dispatch(|s.hand|, a), u)
    ensures Released(u.sync, s.q.sync[0].id) && u.sync.chain == s.sync.chain && !Sound(u.sync)
    ensures Leads(u, Drain, v) && Leads(v, Event.Dispatch(|s.hand|, b), x)
    ensures s.q.sync[0].id < |x.sync.phases| && x.sync.phases[s.q.sync[0].id] == Posted(b, 2)
  {
    var id := s.q.sync[0].id;
    t := MisnamingPass(s, w);
    assert s.sync.chain[0] == id && s.sync.phases[id].Queued?;
    hide PeekPass, Pad, Inherits, QueueState.Inv, SyncMessages.Inv, HandRight;
    StepStaysInStep(t, Event.Dispatch(|s.hand|, a));
    u := Step(t, Event.Dispatch(|s.hand|, a));
    assert u.hand == s.hand;
    assert u.sync.phases[id] == Posted(a, 1) && Released(u.sync, id) && u.sync.chain[0] == id;
    SyncFlagIsUp(u.q);
    StepStaysInStep(u, Drain);
    v := Step(u, Drain);
    x := Step(v, Event.Dispatch(|s.hand|, b));
  }

  lemma MisnamingPass(s: State, w: World) returns (t: State)
    requires Inv(s) && Misnames(s, Pass(w)) && s.q.sync != []
    ensures Leads(s, Pass(w), t) && InStep(t)
    ensures t.sync == s.sync && t.hand == s.hand + [s.q.sync[0].id] && t.q.sync == s.q.sync
    ensures s.sync.chain[0] == s.q.sync[0].id && s.sync.chain[0] in s.sync.chain
  {
    var p := s.peeks[|s.peeks| - 1];
    PassTakes(s.q, p.hwnd, p.f, p.remove, w);
    InheritIsNotSync(s.q, p.hwnd, p.f, p.remove, w, p.pad);
    NodeRightExactly(s.q, p.hwnd, p.f, p.remove, w, p.pad);
    PassStaysInStep(s, w);
    t := AfterPass(s, w);
    hide PeekPass, Pad, Inherits, QueueState.Inv, SyncMessages.Inv, HandRight;
  }

  lemma SyncFlagIsUp(q: QState)
    requires QueueState.Inv(q)
    ensures q.sync != [] ==> SyncFlag in q.flags
  {
  }

  // Nothing is pending but the desktop's time-out.
  predicate OnlyDeskTimer(q: QState) {
    q.sync == [] && q.notify == [] && q.post == [] && q.flags == {DeskTimerFlag}
  }

  // Then a sender's message and a removing peek that filters it out are enough.
  lemma FilteredPeekMisnames(s: State, m: Msg, hwnd: Hwnd, w: World) returns (t: State, u: State)
    requires Inv(s) && OnlyDeskTimer(s.q) && w.isDesktop
    ensures Leads(s, Event.Send(m), t)
    ensures Leads(t, Call(hwnd, Filter(m.message + 1, m.message + 1), true, false), u)
    ensures Inv(u) && Misnames(u, Pass(w)) && u.q.sync != []
  {
    var send, call := Event.Send(m), Call(hwnd, Filter(m.message + 1, m.message + 1), true, false);
    StepKeepsInv(s, send);
    t := Step(s, send);
    StepKeepsInv(t, call);
    u := Step(t, call);
    assert u.q == s.q.(flags := {DeskTimerFlag, SyncFlag}, sync := [SyncEntry(|s.sync.phases|, m)]);
    hide QueueState.Inv, SyncMessages.Inv, HandRight, InStep;
  }

  // Such a queue is one step from an empty one.
  lemma DeskTimerAlone(s: State) returns (t: State)
    requires Inv(s) && s.q.sync == [] && s.q.notify == [] && s.q.post == [] && s.q.flags == {}
    ensures Leads(s, Other(OpDeskTimer), t) && Inv(t) && OnlyDeskTimer(t.q)
  {
    StepKeepsInv(s, Other(OpDeskTimer));
    t := Step(s, Other(OpDeskTimer));
    hide QueueState.Inv, SyncMessages.Inv, HandRight, InStep;
  }
}
