/**
 The bounded waiting of timers in runs of the whole queue, where other peeks, stages that come
 before the timers, and every other operation lie between two passes through the timer stage.
 */
module TimerFairness {
  import opened Common
  import opened Messages
  import opened Circle
  import opened QueueState

  // The peek gets to the timer stage and serves a slot there: nothing that comes before it is
  // there to be delivered.
  predicate ServesTimer(q: QState, op: QOp) {
    && op.OpPeek? && QuitFlag !in q.flags
    && (q.sync != [] ==> !Wants(op.f, q.sync[0].msg.message))
    && (q.notify != [] ==> !Wants(op.f, q.notify[0].message))
    && (q.post != [] ==> !Wants(op.f, q.post[0].message))
    && !(PaintFlag in q.flags && Wants(op.f, MSG_PAINT) && op.w.needPaint != HWND_NULL)
    && !(op.w.isDesktop && DeskTimerFlag in q.flags)
    && AnyExpired(q) && Wants(op.f, MSG_TIMER)
  }

  // What serving does to cursor and mask.
  ghost predicate Served(mask: seq<bool>, cursor: nat, p: QState) {
    && cursor < |mask| && p.cursor == Next(|mask|, cursor)
    && exists slot: nat :: Serves(mask, cursor, slot) && p.mask == mask[slot := false]
  }

  predicate SameTimers(mask: seq<bool>, cursor: nat, p: QState) {
    p.cursor == cursor && p.mask == mask
  }

  predicate PaintPasses(q: QState, f: Filter, w: World) {
    && !(PaintFlag in q.flags && Wants(f, MSG_PAINT) && w.needPaint != HWND_NULL)
    && !(w.isDesktop && DeskTimerFlag in q.flags)
    && AnyExpired(q) && Wants(f, MSG_TIMER)
  }

  lemma PaintServes(q: QState, f: Filter, remove: bool, w: World)
    requires QueueState.Inv(q)
    ensures var p := PeekPaint(q, f, remove, w).0;
      if PaintPasses(q, f, w) then Served(q.mask, q.cursor, p) else SameTimers(q.mask, q.cursor, p)
  {
    if AnyExpired(q) {
      assert Serves(q.mask, q.cursor, ServedSlot(q.mask, q.cursor));
    }
  }

  lemma PostedServes(q: QState, f: Filter, remove: bool, w: World)
    requires QueueState.Inv(q)
    ensures var p := PeekPosted(q, f, remove, w).0;
      if (q.post != [] ==> !Wants(f, q.post[0].message)) && PaintPasses(q, f, w)
      then Served(q.mask, q.cursor, p) else SameTimers(q.mask, q.cursor, p)
  {
    hide PeekPaint, Served, Wants;
    PaintServes(q, f, remove, w);
    if q.post == [] { PaintServes(q.(flags := q.flags - {PostFlag}), f, remove, w); }
  }

  lemma NotifyServes(q: QState, f: Filter, remove: bool, w: World)
    requires QueueState.Inv(q)
    ensures var p := PeekNotify(q, f, remove, w).0;
      if (q.notify != [] ==> !Wants(f, q.notify[0].message)) && (q.post != [] ==> !Wants(f, q.post[0].message))
         && PaintPasses(q, f, w)
      then Served(q.mask, q.cursor, p) else SameTimers(q.mask, q.cursor, p)
  {
    hide PeekPosted, Served, Wants;
    PostedServes(q, f, remove, w);
    if q.notify == [] { PostedServes(q.(flags := q.flags - {NotifyFlag}), f, remove, w); }
  }

  lemma PassServes(q: QState, op: QOp)
    requires QueueState.Inv(q) && op.OpPeek?
    ensures var p := PeekPass(q, op.hwnd, op.f, op.remove, op.w).0;
      if ServesTimer(q, op) then Served(q.mask, q.cursor, p) else SameTimers(q.mask, q.cursor, p)
  {
    hide PeekNotify, Served, Wants;
    NotifyServes(q, op.f, op.remove, op.w);
    if q.sync == [] { NotifyServes(q.(flags := q.flags - {SyncFlag}), op.f, op.remove, op.w); }
  }

  // The cursor moves in the timer stage and nowhere else.
  lemma CursorMovesExactly(q: QState, op: QOp)
    requires QueueState.Inv(q) && QueueState.Enabled(q, op)
    ensures QueueState.Step(q, op).cursor == if ServesTimer(q, op) then Next(|q.mask|, q.cursor) else q.cursor
    ensures |QueueState.Step(q, op).mask| == |q.mask|
  {
    if op.OpPeek? {
      PassServes(q, op);
      hide PeekPass, ServesTimer;
    }
  }

  function TimerPasses(states: seq<QState>, ops: seq<QOp>, a: nat, n: nat): nat
    requires a <= n <= |ops| < |states|
  {
    if n == a then 0 else TimerPasses(states, ops, a, n - 1) + if ServesTimer(states[n - 1], ops[n - 1]) then 1 else 0
  }

  // A pass that leaves an expired slot expired brings the cursor one step nearer to it.
  lemma UnservedComesNearer(q: QState, op: QOp, s: nat)
    requires QueueState.Inv(q) && ServesTimer(q, op) && s < |q.mask| && q.mask[s]
    requires s < |QueueState.Step(q, op).mask| && QueueState.Step(q, op).mask[s]
    ensures 0 < Distance(|q.mask|, q.cursor, s)
    ensures Distance(|q.mask|, Next(|q.mask|, q.cursor), s) == Distance(|q.mask|, q.cursor, s) - 1
  {
    PassServes(q, op);
    hide PeekPass, AnyExpired, Wants;
    var p := QueueState.Step(q, op);
    var slot: nat :| Serves(q.mask, q.cursor, slot) && p.mask == q.mask[slot := false];
    assert slot != s;
  }

  // In every run of the queue, while a slot stays expired and unserved, no more timer passes
  // go by than the cursor has steps to make to it.
  lemma {:induction false} BoundedOnRuns(states: seq<QState>, ops: seq<QOp>, a: nat, n: nat, s: nat)
    requires QueueState.IsRun(states, ops) && a <= n <= |ops|
    requires forall i | a <= i <= n :: s < |states[i].mask| && states[i].mask[s]
    ensures states[a].cursor < |states[a].mask| && states[n].cursor < |states[n].mask| == |states[a].mask|
    ensures Distance(|states[n].mask|, states[n].cursor, s)
         == Distance(|states[a].mask|, states[a].cursor, s) - TimerPasses(states, ops, a, n)
  {
    FlagsNeverHideWork(states, ops, n);
    if a < n {
      BoundedOnRuns(states, ops, a, n - 1, s);
      FlagsNeverHideWork(states, ops, n - 1);
      hide QueueState.Step, ServesTimer;
      CursorMovesExactly(states[n - 1], ops[n - 1]);
      if ServesTimer(states[n - 1], ops[n - 1]) {
        UnservedComesNearer(states[n - 1], ops[n - 1], s);
      }
    }
  }
}
