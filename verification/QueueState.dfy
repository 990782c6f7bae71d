/**
 The message queue as a whole, on values: flag word, three message containers, quit depth and
 timers, with one function for each critical section that touches it.
 */
module QueueState {
  import opened Circle
  import opened Common
  import opened Messages
  import opened PostRing

  // The bits of dwState, as a set; see QueueFlags for the word itself.
  datatype Flag = NotifyFlag | SyncFlag | PostFlag | QuitFlag | PaintFlag | DeskTimerFlag

  datatype SyncEntry = SyncEntry(id: nat, msg: Msg)

  datatype Timer = Timer(hwnd: Hwnd, id: int, ticksFired: int, hasProc: bool)

  datatype QState = QState(
    flags: set<Flag>,
    notify: seq<Msg>,
    sync: seq<SyncEntry>,
    post: seq<Msg>,
    capacity: nat,
    loopDepth: int,
    cursor: nat,
    mask: seq<bool>,
    slots: seq<Option<Timer>>)

  predicate AnyExpired(q: QState) {
    exists t :: 0 <= t < |q.mask| && q.mask[t]
  }

  // A clear flag means an empty container, and only occupied timer slots are marked.
  predicate Inv(q: QState) {
    && (q.sync != [] ==> SyncFlag in q.flags)
    && (q.notify != [] ==> NotifyFlag in q.flags)
    && (q.post != [] ==> PostFlag in q.flags)
    && |q.post| <= q.capacity
    && |q.mask| == |q.slots|
    && q.cursor < |q.mask|
    && q.loopDepth >= (if QuitFlag in q.flags then 1 else 0)
    && forall t | 0 <= t < |q.mask| && q.mask[t] :: q.slots[t].Some?
  }

  // What a peek reads outside the queue: whether this is the desktop's queue, which window
  // needs repainting (the null handle for none) and the clock.
  datatype World = World(isDesktop: bool, desktop: Hwnd, needPaint: Hwnd, region: int, now: int)

  datatype Outcome =
    | Quit(m: Msg)
    | Deliver(m: Msg, isSync: bool)
    | CallTimer(slot: nat)
    | Nothing

  datatype Filter = Filter(min: nat, max: nat)

  predicate Wants(f: Filter, message: nat) {
    IsWanted(f.min, f.max, message)
  }

  const UNFILTERED := Filter(0, 0)

  // ---- PeekMessageEx: one pass from `checkagain` to the unlock --------------------------

  function PeekTimer(q: QState, f: Filter, w: World): (r: (QState, Outcome))
    requires q.cursor < |q.mask| == |q.slots|
  {
    if AnyExpired(q) && Wants(f, MSG_TIMER) then
      var slot := ServedSlot(q.mask, q.cursor);
      var q' := q.(cursor := Next(|q.mask|, q.cursor));
      match q.slots[slot]
      case None => (q', Nothing)
      case Some(timer) =>
        var q'' := q'.(mask := q.mask[slot := false]);
        if timer.hasProc then (q'', CallTimer(slot))
        else (q'', Deliver(Msg(timer.hwnd, MSG_TIMER, timer.id, timer.ticksFired, w.now), false))
    else (q, Nothing)
  }

  function PeekDeskTimer(q: QState, f: Filter, remove: bool, w: World): (r: (QState, Outcome))
    requires q.cursor < |q.mask| == |q.slots|
  {
    if w.isDesktop && DeskTimerFlag in q.flags then
      (if remove then q.(flags := q.flags - {DeskTimerFlag}) else q,
       Deliver(Msg(w.desktop, MSG_TIMEOUT, 0, 0, w.now), false))
    else PeekTimer(q, f, w)
  }

  function PeekPaint(q: QState, f: Filter, remove: bool, w: World): (r: (QState, Outcome))
    requires q.cursor < |q.mask| == |q.slots|
  {
    if PaintFlag in q.flags && Wants(f, MSG_PAINT) then
      if w.needPaint != HWND_NULL then
        (q, Deliver(Msg(w.needPaint, MSG_PAINT, 0, w.region, w.now), false))
      else PeekDeskTimer(q.(flags := q.flags - {PaintFlag}), f, remove, w)
    else PeekDeskTimer(q, f, remove, w)
  }

  function PeekPosted(q: QState, f: Filter, remove: bool, w: World): (r: (QState, Outcome))
    requires q.cursor < |q.mask| == |q.slots|
  {
    if PostFlag in q.flags && q.post != [] && Wants(f, q.post[0].message) then
      (if remove then q.(post := q.post[1..]) else q, Deliver(q.post[0], false))
    else if PostFlag in q.flags && q.post == [] then
      PeekPaint(q.(flags := q.flags - {PostFlag}), f, remove, w)
    else PeekPaint(q, f, remove, w)
  }

  function PeekNotify(q: QState, f: Filter, remove: bool, w: World): (r: (QState, Outcome))
    requires q.cursor < |q.mask| == |q.slots|
  {
    if NotifyFlag in q.flags && q.notify != [] && Wants(f, q.notify[0].message) then
      (if remove then q.(notify := q.notify[1..]) else q, Deliver(q.notify[0], false))
    else if NotifyFlag in q.flags && q.notify == [] then
      PeekPosted(q.(flags := q.flags - {NotifyFlag}), f, remove, w)
    else PeekPosted(q, f, remove, w)
  }

  function PeekSync(q: QState, f: Filter, remove: bool, w: World): (r: (QState, Outcome))
    requires q.cursor < |q.mask| == |q.slots|
  {
    if SyncFlag in q.flags && q.sync != [] && Wants(f, q.sync[0].msg.message) then
      (if remove then q.(sync := q.sync[1..]) else q, Deliver(q.sync[0].msg, true))
    else if SyncFlag in q.flags && q.sync == [] then
      PeekNotify(q.(flags := q.flags - {SyncFlag}), f, remove, w)
    else PeekNotify(q, f, remove, w)
  }

  function PeekQuit(q: QState): QState {
    var q' := q.(loopDepth := q.loopDepth - 1);
    if q'.loopDepth == 0 then q'.(flags := q.flags - {QuitFlag}) else q'
  }

  function PeekPass(q: QState, hwnd: Hwnd, f: Filter, remove: bool, w: World): (r: (QState, Outcome))
    requires q.cursor < |q.mask| == |q.slots|
  {
    if QuitFlag in q.flags then
      (if remove then PeekQuit(q) else q, Quit(Msg(hwnd, MSG_QUIT, 0, 0, w.now)))
    else PeekSync(q, f, remove, w)
  }

  // ---- the pSyncMsg field of the message that a pass fills in --------------------------

  // `pad` is the field before the stage: the number of a sender's node, or none for NULL. A
  // pass that comes round again after a timer procedure or a wait finds what the last one left.
  function PadTimer(q: QState, f: Filter, w: World, pad: Option<nat>): Option<nat>
    requires q.cursor < |q.mask| == |q.slots|
  {
    if PeekTimer(q, f, w).1.Deliver? then None else pad
  }

  // The desktop time-out is delivered with the field as it is.
  function PadDeskTimer(q: QState, f: Filter, w: World, pad: Option<nat>): Option<nat>
    requires q.cursor < |q.mask| == |q.slots|
  {
    if w.isDesktop && DeskTimerFlag in q.flags then pad else PadTimer(q, f, w, pad)
  }

  function PadPaint(q: QState, f: Filter, w: World, pad: Option<nat>): Option<nat>
    requires q.cursor < |q.mask| == |q.slots|
  {
    if PaintFlag in q.flags && Wants(f, MSG_PAINT) then
      if w.needPaint != HWND_NULL then None else PadDeskTimer(q.(flags := q.flags - {PaintFlag}), f, w, None)
    else PadDeskTimer(q, f, w, pad)
  }

  function PadPosted(q: QState, f: Filter, w: World, pad: Option<nat>): Option<nat>
    requires q.cursor < |q.mask| == |q.slots|
  {
    if PostFlag in q.flags && q.post != [] then
      if Wants(f, q.post[0].message) then None else PadPaint(q, f, w, None)
    else if PostFlag in q.flags then PadPaint(q.(flags := q.flags - {PostFlag}), f, w, pad)
    else PadPaint(q, f, w, pad)
  }

  function PadNotify(q: QState, f: Filter, w: World, pad: Option<nat>): Option<nat>
    requires q.cursor < |q.mask| == |q.slots|
  {
    if NotifyFlag in q.flags && q.notify != [] then
      if Wants(f, q.notify[0].message) then None else PadPosted(q, f, w, None)
    else if NotifyFlag in q.flags then PadPosted(q.(flags := q.flags - {NotifyFlag}), f, w, pad)
    else PadPosted(q, f, w, pad)
  }

  // The field names the first sender even if its message is not wanted.
  function PadSync(q: QState, f: Filter, w: World, pad: Option<nat>): Option<nat>
    requires q.cursor < |q.mask| == |q.slots|
  {
    if SyncFlag in q.flags && q.sync != [] then
      if Wants(f, q.sync[0].msg.message) then Some(q.sync[0].id) else PadNotify(q, f, w, Some(q.sync[0].id))
    else if SyncFlag in q.flags then PadNotify(q.(flags := q.flags - {SyncFlag}), f, w, pad)
    else PadNotify(q, f, w, pad)
  }

  function Pad(q: QState, f: Filter, w: World, pad: Option<nat>): Option<nat>
    requires q.cursor < |q.mask| == |q.slots|
  {
    if QuitFlag in q.flags then None else PadSync(q, f, w, pad)
  }

  // ---- the other critical sections -----------------------------------------------------

  function QueueMsg(q: QState, m: Msg): (r: (QState, bool)) {
    var (post, ok) := Post(q.post, q.capacity, m);
    (if ok then q.(post := post, flags := q.flags + {PostFlag}) else q, ok)
  }

  function SendNotify(q: QState, m: Msg): QState {
    q.(notify := q.notify + [m], flags := q.flags + {NotifyFlag})
  }

  function SendPriorNotify(q: QState, m: Msg): QState {
    q.(notify := [m] + q.notify, flags := q.flags + {NotifyFlag})
  }

  function QueueSync(q: QState, e: SyncEntry): QState {
    q.(sync := q.sync + [e], flags := q.flags + {SyncFlag})
  }

  // One round of the drain with which SendSyncMessage answers its own senders first.
  function DrainSync(q: QState): QState {
    if SyncFlag !in q.flags then q
    else if q.sync != [] then q.(sync := q.sync[1..])
    else q.(flags := q.flags - {SyncFlag})
  }

  function PostPaint(q: QState): QState {
    q.(flags := q.flags + {PaintFlag})
  }

  function PostQuit(q: QState): QState {
    if QuitFlag in q.flags then q
    else q.(loopDepth := q.loopDepth + 1, flags := q.flags + {QuitFlag})
  }

  function AlertDeskTimer(q: QState): QState {
    q.(flags := q.flags + {DeskTimerFlag})
  }

  function PeekPost(q: QState, f: Filter, remove: bool): (r: (QState, Option<Msg>)) {
    if PostFlag in q.flags && q.post != [] && IsWantedPost(f.min, f.max, q.post[0].message) then
      (if remove then q.(post := q.post[1..]) else q, Some(q.post[0]))
    else (q, None)
  }

  function ClearTimers(q: QState, ws: Windows, target: Hwnd): (mask: seq<bool>)
    requires |q.mask| == |q.slots|
    ensures |mask| == |q.mask|
    ensures forall t | 0 <= t < |mask| :: mask[t] <==>
              q.mask[t] && !(q.slots[t].Some? && BelongsTo(ws, q.slots[t].value.hwnd, target))
  {
    seq(|q.mask|, t requires 0 <= t < |q.mask| =>
      q.mask[t] && !(q.slots[t].Some? && BelongsTo(ws, q.slots[t].value.hwnd, target)))
  }

  // Everything but the sync branch, which SyncWalk treats; `sync` is what that branch leaves.
  function ThrowAway(q: QState, ws: Windows, target: Hwnd, sync: seq<SyncEntry>): QState
    requires |q.mask| == |q.slots|
  {
    q.(notify := Keep(ws, target, q.notify), post := Keep(ws, target, q.post),
       mask := ClearTimers(q, ws, target), sync := sync)
  }

  function Empty(q: QState): QState {
    q.(flags := {}, notify := [], sync := [], post := [], mask := seq(|q.mask|, i => false))
  }

  // ---- the two "is there work" tests ----------------------------------------------------

  // HavePendingMessageEx, up to the call of the idle handler.
  predicate HavePending(q: QState, isDesktop: bool, noDeskTimer: bool) {
    || (SyncFlag in q.flags && q.sync != [])
    || (NotifyFlag in q.flags && q.notify != [])
    || (PostFlag in q.flags && q.post != [])
    || QuitFlag in q.flags || PaintFlag in q.flags
    || AnyExpired(q)
    || (!noDeskTimer && isDesktop && DeskTimerFlag in q.flags)
  }

  // WaitMessage, up to the wait.
  predicate WaitTest(q: QState, isDesktop: bool) {
    || QuitFlag in q.flags
    || (SyncFlag in q.flags && q.sync != [])
    || (NotifyFlag in q.flags && q.notify != [])
    || (PostFlag in q.flags && q.post != [])
    || PaintFlag in q.flags
    || (isDesktop && DeskTimerFlag in q.flags)
    || AnyExpired(q)
  }

  // Something is there, read off the containers and not off their flags.
  predicate HasWork(q: QState, isDesktop: bool) {
    || q.sync != [] || q.notify != [] || q.post != []
    || QuitFlag in q.flags || PaintFlag in q.flags
    || (isDesktop && DeskTimerFlag in q.flags)
    || AnyExpired(q)
  }

  predicate FrontWanted(s: seq<Msg>, f: Filter) {
    s != [] && Wants(f, s[0].message)
  }

  // A peek with this filter comes back with something: only the fronts of the containers count.
  predicate Ready(q: QState, f: Filter, isDesktop: bool) {
    || QuitFlag in q.flags
    || (q.sync != [] && Wants(f, q.sync[0].msg.message))
    || FrontWanted(q.notify, f) || FrontWanted(q.post, f)
    || (PaintFlag in q.flags && Wants(f, MSG_PAINT))
    || (isDesktop && DeskTimerFlag in q.flags)
    || (AnyExpired(q) && Wants(f, MSG_TIMER))
  }

  lemma UnfilteredIsWork(q: QState, isDesktop: bool)
    ensures Ready(q, UNFILTERED, isDesktop) <==> HasWork(q, isDesktop)
  {
  }

  // ---- runs ----------------------------------------------------------------------------

  datatype QOp =
    | OpQueue(m: Msg)
    | OpNotify(m: Msg)
    | OpPriorNotify(m: Msg)
    | OpSync(e: SyncEntry)
    | OpPaint
    | OpQuit
    | OpDeskTimer
    | OpExpire(slot: nat)
    | OpSetTimer(slot: nat, timer: Option<Timer>)
    | OpPeek(hwnd: Hwnd, f: Filter, remove: bool, w: World)
    | OpPeekPost(f: Filter, remove: bool)
    | OpDrainSync
    | OpThrowAway(ws: Windows, target: Hwnd, sync: seq<SyncEntry>)
    | OpEmpty

  // The timer code sets the bit of an occupied slot only, and clears it with the slot. The
  // sync branch of throwing away adds no entry.
  predicate Enabled(q: QState, op: QOp) {
    match op
    case OpExpire(slot) => slot < |q.mask| == |q.slots| && q.slots[slot].Some?
    case OpSetTimer(slot, _) => slot < |q.mask| == |q.slots|
    case OpThrowAway(_, _, sync) => q.sync == [] ==> sync == []
    case _ => true
  }

  function Step(q: QState, op: QOp): QState
    requires Inv(q) && Enabled(q, op)
  {
    match op
    case OpQueue(m) => QueueMsg(q, m).0
    case OpNotify(m) => SendNotify(q, m)
    case OpPriorNotify(m) => SendPriorNotify(q, m)
    case OpSync(e) => QueueSync(q, e)
    case OpPaint => PostPaint(q)
    case OpQuit => PostQuit(q)
    case OpDeskTimer => AlertDeskTimer(q)
    case OpExpire(slot) => q.(mask := q.mask[slot := true])
    case OpSetTimer(slot, timer) => q.(slots := q.slots[slot := timer], mask := q.mask[slot := false])
    case OpPeek(hwnd, f, remove, w) => PeekPass(q, hwnd, f, remove, w).0
    case OpPeekPost(f, remove) => PeekPost(q, f, remove).0
    case OpDrainSync => DrainSync(q)
    case OpThrowAway(ws, target, sync) => ThrowAway(q, ws, target, sync)
    case OpEmpty => Empty(q)
  }

  lemma TimerKeepsInv(q: QState, f: Filter, w: World)
    requires Inv(q)
    ensures var (q', out) := PeekTimer(q, f, w);
      && Inv(q')
      && (q'.flags, q'.sync, q'.notify, q'.post) == (q.flags, q.sync, q.notify, q.post)
      && (out == Nothing ==> !(AnyExpired(q') && Wants(f, MSG_TIMER)))
  {
  }

  // The stages after the three containers.
  lemma PaintKeepsInv(q: QState, f: Filter, remove: bool, w: World)
    requires Inv(q)
    ensures var (q', out) := PeekPaint(q, f, remove, w);
      && Inv(q')
      && (q'.sync, q'.notify, q'.post) == (q.sync, q.notify, q.post)
      && q'.flags <= q.flags
      && (out == Nothing ==>
            && !(PaintFlag in q'.flags && Wants(f, MSG_PAINT)) && !(AnyExpired(q') && Wants(f, MSG_TIMER))
            && !(w.isDesktop && DeskTimerFlag in q'.flags))
  {
    hide PeekTimer, AnyExpired;
    TimerKeepsInv(q, f, w);
    TimerKeepsInv(q.(flags := q.flags - {PaintFlag}), f, w);
  }

  lemma PostedKeepsInv(q: QState, f: Filter, remove: bool, w: World)
    requires Inv(q)
    ensures var (q', out) := PeekPosted(q, f, remove, w);
      && Inv(q') && (q'.sync, q'.notify) == (q.sync, q.notify) && q'.flags <= q.flags
      && (out == Nothing && QuitFlag !in q.flags && !(q.sync != [] && Wants(f, q.sync[0].msg.message)) ==>
            FrontWanted(q.notify, f) || !Ready(q', f, w.isDesktop))
  {
    hide PeekPaint, AnyExpired;
    PaintKeepsInv(q, f, remove, w);
    if q.post == [] {
      PaintKeepsInv(q.(flags := q.flags - {PostFlag}), f, remove, w);
    }
  }

  lemma NotifyKeepsInv(q: QState, f: Filter, remove: bool, w: World)
    requires Inv(q)
    ensures var (q', out) := PeekNotify(q, f, remove, w);
      && Inv(q') && q'.sync == q.sync && q'.flags <= q.flags
      && (out == Nothing && QuitFlag !in q.flags && !(q.sync != [] && Wants(f, q.sync[0].msg.message)) ==>
            !Ready(q', f, w.isDesktop))
  {
    hide PeekPosted, AnyExpired;
    PostedKeepsInv(q, f, remove, w);
    if q.notify == [] {
      PostedKeepsInv(q.(flags := q.flags - {NotifyFlag}), f, remove, w);
    }
  }

  // Every pass keeps the invariant, and one that comes back empty leaves nothing ready for its
  // filter; an unfiltered one leaves no work.
  lemma PeekKeepsInv(q: QState, hwnd: Hwnd, f: Filter, remove: bool, w: World)
    requires Inv(q)
    ensures Inv(PeekPass(q, hwnd, f, remove, w).0)
    ensures PeekPass(q, hwnd, f, remove, w).1 == Nothing ==>
              !Ready(PeekPass(q, hwnd, f, remove, w).0, f, w.isDesktop)
    ensures PeekPass(q, hwnd, f, remove, w).1 == Nothing && f == UNFILTERED ==>
              !HasWork(PeekPass(q, hwnd, f, remove, w).0, w.isDesktop)
  {
    UnfilteredIsWork(PeekPass(q, hwnd, f, remove, w).0, w.isDesktop);
    hide PeekNotify, AnyExpired, HasWork;
    NotifyKeepsInv(q, f, remove, w);
    if q.sync == [] {
      NotifyKeepsInv(q.(flags := q.flags - {SyncFlag}), f, remove, w);
    }
  }

  lemma KeepEmpty(ws: Windows, target: Hwnd, s: seq<Msg>)
    ensures Keep(ws, target, s) != [] ==> s != []
  {
  }

  lemma ThrowKeepsInv(q: QState, ws: Windows, target: Hwnd, sync: seq<SyncEntry>)
    requires Inv(q) && (q.sync == [] ==> sync == [])
    ensures Inv(ThrowAway(q, ws, target, sync))
  {
    KeepEmpty(ws, target, q.notify);
    KeepEmpty(ws, target, q.post);
    hide Keep, BelongsTo;
  }

  lemma SendersKeepInv(q: QState, op: QOp)
    requires Inv(q) && Enabled(q, op) && !op.OpPeek? && !op.OpThrowAway? && !op.OpSetTimer? && !op.OpExpire?
    ensures Inv(Step(q, op))
  {
    hide PeekPass, ThrowAway, HasKey;
  }

  lemma StepKeepsInv(q: QState, op: QOp)
    requires Inv(q) && Enabled(q, op)
    ensures Inv(Step(q, op))
  {
    match op
    case OpPeek(hwnd, f, remove, w) => PeekKeepsInv(q, hwnd, f, remove, w);
    case OpThrowAway(ws, target, sync) => ThrowKeepsInv(q, ws, target, sync);
    case OpSetTimer(_, _) =>
    case OpExpire(_) =>
    case _ =>
      SendersKeepInv(q, op);
      hide Inv, Step;
  }

  // `p` is `q` with at most flags cleared, the cursor moved and timers served.
  predicate SameContents(p: QState, q: QState) {
    (p.sync, p.notify, p.post, p.loopDepth) == (q.sync, q.notify, q.post, q.loopDepth) && p.flags <= q.flags
  }

  predicate IsMade(out: Outcome) {
    !out.Quit? && (out.Deliver? ==> out.m.message in {MSG_PAINT, MSG_TIMEOUT, MSG_TIMER} && !out.isSync)
  }

  lemma PaintTakesNone(q: QState, f: Filter, remove: bool, w: World)
    requires Inv(q)
    ensures SameContents(PeekPaint(q, f, remove, w).0, q) && IsMade(PeekPaint(q, f, remove, w).1)
  {
    hide AnyExpired;
  }

  // What the posted stage delivers and leaves, read off the container alone.
  predicate TakesPosted(q: QState, f: Filter, remove: bool, p: QState, out: Outcome) {
    if q.post != [] && Wants(f, q.post[0].message) then
      out == Deliver(q.post[0], false) && SameContents(p, q.(post := if remove then q.post[1..] else q.post))
    else SameContents(p, q) && IsMade(out)
  }

  predicate TakesNotify(q: QState, f: Filter, remove: bool, p: QState, out: Outcome) {
    if q.notify != [] && Wants(f, q.notify[0].message) then
      out == Deliver(q.notify[0], false) && SameContents(p, q.(notify := if remove then q.notify[1..] else q.notify))
    else TakesPosted(q, f, remove, p, out)
  }

  predicate TakesFirst(q: QState, f: Filter, remove: bool, p: QState, out: Outcome) {
    if q.sync != [] && Wants(f, q.sync[0].msg.message) then
      out == Deliver(q.sync[0].msg, true) && SameContents(p, q.(sync := if remove then q.sync[1..] else q.sync))
    else TakesNotify(q, f, remove, p, out)
  }

  lemma PostedTakesFirst(q: QState, f: Filter, remove: bool, w: World)
    requires Inv(q)
    ensures TakesPosted(q, f, remove, PeekPosted(q, f, remove, w).0, PeekPosted(q, f, remove, w).1)
  {
    hide PeekPaint, IsMade, AnyExpired, Wants;
    PaintTakesNone(q, f, remove, w);
    if q.post == [] { PaintTakesNone(q.(flags := q.flags - {PostFlag}), f, remove, w); }
  }

  lemma NotifyTakesFirst(q: QState, f: Filter, remove: bool, w: World)
    requires Inv(q)
    ensures TakesNotify(q, f, remove, PeekNotify(q, f, remove, w).0, PeekNotify(q, f, remove, w).1)
  {
    hide PeekPosted, IsMade, AnyExpired, Wants;
    PostedTakesFirst(q, f, remove, w);
    if q.notify == [] { PostedTakesFirst(q.(flags := q.flags - {NotifyFlag}), f, remove, w); }
  }

  // A peek delivers the first wanted one of the front sync message, notification and posted
  // message, in this order, and takes at most that; only when none of the three is wanted it
  // makes a repaint, desktop time-out or timer message, and then no container changes.
  lemma PeekTakesFirst(q: QState, hwnd: Hwnd, f: Filter, remove: bool, w: World)
    requires Inv(q) && QuitFlag !in q.flags
    ensures var (p, out) := PeekPass(q, hwnd, f, remove, w); TakesFirst(q, f, remove, p, out)
  {
    hide PeekNotify, IsMade, AnyExpired, Wants;
    NotifyTakesFirst(q, f, remove, w);
    if q.sync == [] { NotifyTakesFirst(q.(flags := q.flags - {SyncFlag}), f, remove, w); }
  }

  // A delivered message should name the sender of the sync message it is, and nobody else.
  predicate RightNode(q: QState, out: Outcome, pad: Option<nat>) {
    out.Deliver? ==> pad == if out.isSync && q.sync != [] then Some(q.sync[0].id) else None
  }

  // The pass ends in the desktop time-out without having passed a stage that resets the field.
  predicate Inherits(q: QState, f: Filter, w: World, pad: Option<nat>) {
    && QuitFlag !in q.flags
    && (q.sync != [] ==> !Wants(f, q.sync[0].msg.message))
    && q.notify == [] && q.post == []
    && !(PaintFlag in q.flags && Wants(f, MSG_PAINT))
    && w.isDesktop && DeskTimerFlag in q.flags
    && (q.sync != [] || pad.Some?)
  }

  // The stages behind the containers reset the field, unless the desktop time-out comes first.
  predicate PaintResets(q: QState, f: Filter, w: World) {
    (PaintFlag in q.flags && Wants(f, MSG_PAINT)) || !(w.isDesktop && DeskTimerFlag in q.flags)
  }

  lemma PaintNode(q: QState, f: Filter, remove: bool, w: World, pad: Option<nat>)
    requires Inv(q)
    ensures PeekPaint(q, f, remove, w).1.Deliver? ==> !PeekPaint(q, f, remove, w).1.isSync
    ensures PeekPaint(q, f, remove, w).1.Deliver? ==>
              PadPaint(q, f, w, pad) == if PaintResets(q, f, w) then None else pad
  {
    hide AnyExpired, Inv;
  }

  lemma PostedNode(q: QState, f: Filter, remove: bool, w: World, pad: Option<nat>)
    requires Inv(q)
    ensures PeekPosted(q, f, remove, w).1.Deliver? ==> !PeekPosted(q, f, remove, w).1.isSync
    ensures PeekPosted(q, f, remove, w).1.Deliver? ==>
              PadPosted(q, f, w, pad) == if q.post != [] || PaintResets(q, f, w) then None else pad
  {
    hide AnyExpired, PeekPaint, PadPaint, Wants;
    if q.post != [] {
      PaintNode(q, f, remove, w, None);
    } else {
      PaintNode(q, f, remove, w, pad);
      PaintNode(q.(flags := q.flags - {PostFlag}), f, remove, w, pad);
    }
  }

  lemma NotifyNode(q: QState, f: Filter, remove: bool, w: World, pad: Option<nat>)
    requires Inv(q)
    ensures PeekNotify(q, f, remove, w).1.Deliver? ==> !PeekNotify(q, f, remove, w).1.isSync
    ensures PeekNotify(q, f, remove, w).1.Deliver? ==>
              PadNotify(q, f, w, pad) == if q.notify != [] || q.post != [] || PaintResets(q, f, w) then None else pad
  {
    hide AnyExpired, PeekPosted, PadPosted, Wants;
    if q.notify != [] {
      PostedNode(q, f, remove, w, None);
    } else {
      PostedNode(q, f, remove, w, pad);
      PostedNode(q.(flags := q.flags - {NotifyFlag}), f, remove, w, pad);
    }
  }

  // When nothing resets the field the pass does deliver: the desktop time-out.
  lemma InheritDelivers(q: QState, f: Filter, remove: bool, w: World)
    requires q.cursor < |q.mask| == |q.slots|
    requires q.notify == [] && q.post == [] && !PaintResets(q, f, w)
    ensures PeekNotify(q, f, remove, w).1.Deliver?
  {
    hide PeekTimer;
  }

  // A pass names the right node if and only if it does not inherit another one.
  lemma NodeRightExactly(q: QState, hwnd: Hwnd, f: Filter, remove: bool, w: World, pad: Option<nat>)
    requires Inv(q)
    ensures RightNode(q, PeekPass(q, hwnd, f, remove, w).1, Pad(q, f, w, pad)) <==> !Inherits(q, f, w, pad)
    ensures Inherits(q, f, w, pad) ==>
              Pad(q, f, w, pad) == if q.sync != [] then Some(q.sync[0].id) else pad
  {
    hide AnyExpired, PeekNotify, PadNotify, Wants;
    if QuitFlag !in q.flags && !(q.sync != [] && Wants(f, q.sync[0].msg.message)) {
      var p := if q.sync == [] && SyncFlag in q.flags then q.(flags := q.flags - {SyncFlag}) else q;
      NotifyNode(p, f, remove, w, if q.sync == [] then pad else Some(q.sync[0].id));
      if q.notify == [] && q.post == [] && !PaintResets(q, f, w) { InheritDelivers(p, f, remove, w); }
    }
  }

  function InitQueue(capacity: nat, timers: nat): QState {
    QState({}, [], [], [], capacity, 0, 0, seq(timers, i => false), seq(timers, i => None))
  }

  ghost predicate IsRun(states: seq<QState>, ops: seq<QOp>) {
    && |states| == |ops| + 1
    && (exists capacity: nat, timers: nat :: timers > 0 && states[0] == InitQueue(capacity, timers))
    && forall i | 0 <= i < |ops| ::
         Inv(states[i]) ==> Enabled(states[i], ops[i]) && states[i + 1] == Step(states[i], ops[i])
  }

  // In every reachable state a clear flag means an empty container.
  lemma {:induction false} FlagsNeverHideWork(states: seq<QState>, ops: seq<QOp>, n: nat)
    requires IsRun(states, ops) && n <= |ops|
    ensures Inv(states[n])
  {
    if n > 0 {
      FlagsNeverHideWork(states, ops, n - 1);
      StepKeepsInv(states[n - 1], ops[n - 1]);
    }
  }

  // The two tests agree with each other and with the containers.
  lemma TestsAgree(q: QState, isDesktop: bool)
    requires Inv(q)
    ensures HavePending(q, isDesktop, false) == WaitTest(q, isDesktop) == HasWork(q, isDesktop)
    ensures HavePending(q, isDesktop, true) ==> HasWork(q, isDesktop)
    ensures HasWork(q, isDesktop) && !HavePending(q, isDesktop, true) <==>
              isDesktop && DeskTimerFlag in q.flags && !HasWork(q, false)
  {
  }

  // The paint flag is up although no window needs repainting.
  predicate IdlePaint(q: QState, w: World) {
    PaintFlag in q.flags && w.needPaint == HWND_NULL
  }

  predicate PaintWork(q: QState, isDesktop: bool) {
    PaintFlag in q.flags || (isDesktop && DeskTimerFlag in q.flags) || AnyExpired(q)
  }

  lemma PaintPending(q: QState, remove: bool, w: World)
    requires Inv(q)
    ensures PeekPaint(q, UNFILTERED, remove, w).1 != Nothing || IdlePaint(q, w) <==> PaintWork(q, w.isDesktop)
  {
  }

  lemma PostedPending(q: QState, remove: bool, w: World)
    requires Inv(q)
    ensures PeekPosted(q, UNFILTERED, remove, w).1 != Nothing || IdlePaint(q, w)
       <==> q.post != [] || PaintWork(q, w.isDesktop)
  {
    hide PeekPaint;
    PaintPending(q, remove, w);
    if q.post == [] { PaintPending(q.(flags := q.flags - {PostFlag}), remove, w); }
  }

  lemma NotifyPending(q: QState, remove: bool, w: World)
    requires Inv(q)
    ensures PeekNotify(q, UNFILTERED, remove, w).1 != Nothing || IdlePaint(q, w)
       <==> q.notify != [] || q.post != [] || PaintWork(q, w.isDesktop)
  {
    hide PeekPosted;
    PostedPending(q, remove, w);
    if q.notify == [] { PostedPending(q.(flags := q.flags - {NotifyFlag}), remove, w); }
  }

  // The tests hold exactly when an unfiltered peek comes back with something, or when the
  // paint flag is set although no window needs repainting.
  lemma PendingExactly(q: QState, hwnd: Hwnd, remove: bool, w: World)
    requires Inv(q)
    ensures HasWork(q, w.isDesktop) <==> PeekPass(q, hwnd, UNFILTERED, remove, w).1 != Nothing || IdlePaint(q, w)
  {
    hide PeekNotify;
    NotifyPending(q, remove, w);
    if q.sync == [] { NotifyPending(q.(flags := q.flags - {SyncFlag}), remove, w); }
  }

  // ---- the depth of quit requests ------------------------------------------------------

  lemma StepKeepsDepth(q: QState, op: QOp)
    requires Inv(q) && Enabled(q, op) && (op.OpEmpty? ==> QuitFlag !in q.flags)
    requires q.loopDepth == if QuitFlag in q.flags then 1 else 0
    ensures Step(q, op).loopDepth == if QuitFlag in Step(q, op).flags then 1 else 0
  {
    match op
    case OpPeek(hwnd, f, remove, w) =>
      if QuitFlag !in q.flags {
        hide PeekPass, Inv, Wants;
        PeekTakesFirst(q, hwnd, f, remove, w);
      }
    case _ =>
  }

  // In every run that never empties a queue with a request pending, the depth is one for a
  // pending request and zero otherwise.
  lemma {:induction false} DepthIsPending(states: seq<QState>, ops: seq<QOp>, n: nat)
    requires IsRun(states, ops) && n <= |ops|
    requires forall i | 0 <= i < n && ops[i].OpEmpty? :: QuitFlag !in states[i].flags
    ensures states[n].loopDepth == if QuitFlag in states[n].flags then 1 else 0
  {
    if n > 0 {
      hide Inv, Step, Enabled;
      DepthIsPending(states, ops, n - 1);
      FlagsNeverHideWork(states, ops, n - 1);
      StepKeepsDepth(states[n - 1], ops[n - 1]);
    }
  }
}
