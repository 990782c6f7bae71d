/**
 What peeks deliver, read off the queue without its stages: the messages that a peek makes up
 itself, and the order in which consecutive peeks bring the pending messages.
 */
module PeekDelivery {
  import opened Common
  import opened Messages
  import opened Circle
  import opened PostRing
  import opened QueueState

  // ---- messages that are made up -------------------------------------------------------

  predicate SameTimers(q: QState, p: QState) {
    (p.cursor, p.mask, p.slots) == (q.cursor, q.mask, q.slots)
  }

  // The nearest expired slot is served: its mark goes, the cursor moves on by one, and its
  // procedure is called or, without one, its message delivered.
  ghost predicate ServesSlot(mask: seq<bool>, cursor: nat, slots: seq<Option<Timer>>, w: World, p: QState, out: Outcome) {
    exists slot: nat :: TakesSlot(mask, cursor, slots, w, p, out, slot)
  }

  predicate TakesSlot(mask: seq<bool>, cursor: nat, slots: seq<Option<Timer>>, w: World, p: QState, out: Outcome, slot: nat) {
    && cursor < |mask| && Serves(mask, cursor, slot) && slot < |slots| && slots[slot].Some?
    && p.mask == mask[slot := false] && p.cursor == (cursor + 1) % |mask| && p.slots == slots
    && var timer := slots[slot].value;
       if timer.hasProc then out == CallTimer(slot)
       else out == Deliver(Msg(timer.hwnd, MSG_TIMER, timer.id, timer.ticksFired, w.now), false)
  }

  // When no container has a wanted message in front: a repaint, which stays pending; else the
  // desktop's time-out, which a removing peek ends; else a timer; else nothing.
  ghost predicate Makes(paint: bool, desk: bool, q: QState, f: Filter, remove: bool, w: World, p: QState, out: Outcome) {
    if paint && Wants(f, MSG_PAINT) && w.needPaint != HWND_NULL then
      && out == Deliver(Msg(w.needPaint, MSG_PAINT, 0, w.region, w.now), false)
      && PaintFlag in p.flags && (DeskTimerFlag in p.flags <==> desk) && SameTimers(q, p)
    else
      && (PaintFlag in p.flags <==> paint && !Wants(f, MSG_PAINT))
      && if w.isDesktop && desk then
           && out == Deliver(Msg(w.desktop, MSG_TIMEOUT, 0, 0, w.now), false)
           && (DeskTimerFlag in p.flags <==> !remove) && SameTimers(q, p)
         else
           && (DeskTimerFlag in p.flags <==> desk)
           && if (exists t :: 0 <= t < |q.mask| && q.mask[t]) && Wants(f, MSG_TIMER)
              then ServesSlot(q.mask, q.cursor, q.slots, w, p, out)
              else out == Nothing && SameTimers(q, p)
  }

  predicate Has(q: QState, flag: Flag) {
    flag in q.flags
  }

  lemma TimerServesSlot(q: QState, f: Filter, w: World)
    requires QueueState.Inv(q)
    ensures var (p, out) := PeekTimer(q, f, w);
      && p.flags == q.flags
      && if AnyExpired(q) && Wants(f, MSG_TIMER) then ServesSlot(q.mask, q.cursor, q.slots, w, p, out)
         else out == Nothing && SameTimers(q, p)
  {
    if AnyExpired(q) && Wants(f, MSG_TIMER) {
      var (p, out) := PeekTimer(q, f, w);
      assert TakesSlot(q.mask, q.cursor, q.slots, w, p, out, ServedSlot(q.mask, q.cursor));
    }
  }

  lemma PaintMakes(q: QState, f: Filter, remove: bool, w: World)
    requires QueueState.Inv(q)
    ensures var (p, out) := PeekPaint(q, f, remove, w);
      Makes(Has(q, PaintFlag), Has(q, DeskTimerFlag), q, f, remove, w, p, out)
  {
    TimerServesSlot(q, f, w);
    TimerServesSlot(q.(flags := q.flags - {PaintFlag}), f, w);
    hide PeekTimer, ServesSlot, Wants;
  }

  // A container that delivers leaves everything else alone.
  predicate LeavesRest(q: QState, p: QState) {
    SameTimers(q, p) && (Has(p, PaintFlag) <==> Has(q, PaintFlag)) && (Has(p, DeskTimerFlag) <==> Has(q, DeskTimerFlag))
  }

  // Only the timers of the queue matter for that.
  lemma SameMakes(paint: bool, desk: bool, q: QState, r: QState, f: Filter, remove: bool, w: World, p: QState, out: Outcome)
    requires SameTimers(q, r) && Makes(paint, desk, r, f, remove, w, p, out)
    ensures Makes(paint, desk, q, f, remove, w, p, out)
  {
    hide ServesSlot, Wants;
  }

  lemma PostedMakes(q: QState, f: Filter, remove: bool, w: World)
    requires QueueState.Inv(q)
    ensures var (p, out) := PeekPosted(q, f, remove, w);
      if FrontWanted(q.post, f) then LeavesRest(q, p)
      else Makes(Has(q, PaintFlag), Has(q, DeskTimerFlag), q, f, remove, w, p, out)
  {
    PaintMakes(q, f, remove, w);
    if q.post == [] {
      var r := q.(flags := q.flags - {PostFlag});
      PaintMakes(r, f, remove, w);
      SameMakes(Has(q, PaintFlag), Has(q, DeskTimerFlag), q, r, f, remove, w,
                PeekPaint(r, f, remove, w).0, PeekPaint(r, f, remove, w).1);
    }
    hide PeekPaint, Makes, Wants;
  }

  lemma NotifyMakes(q: QState, f: Filter, remove: bool, w: World)
    requires QueueState.Inv(q)
    ensures var (p, out) := PeekNotify(q, f, remove, w);
      if FrontWanted(q.notify, f) || FrontWanted(q.post, f) then LeavesRest(q, p)
      else Makes(Has(q, PaintFlag), Has(q, DeskTimerFlag), q, f, remove, w, p, out)
  {
    PostedMakes(q, f, remove, w);
    if q.notify == [] && NotifyFlag in q.flags {
      var r := q.(flags := q.flags - {NotifyFlag});
      PostedMakes(r, f, remove, w);
      if !FrontWanted(q.post, f) {
        SameMakes(Has(q, PaintFlag), Has(q, DeskTimerFlag), q, r, f, remove, w,
                PeekPosted(r, f, remove, w).0, PeekPosted(r, f, remove, w).1);
      }
    }
    hide PeekPosted, Makes, Wants;
  }

  // What a peek makes up and what it does to timers and flags, for every filter.
  lemma MadeExactly(q: QState, hwnd: Hwnd, f: Filter, remove: bool, w: World)
    requires QueueState.Inv(q) && QuitFlag !in q.flags
    ensures var (p, out) := PeekPass(q, hwnd, f, remove, w);
      if (q.sync != [] && Wants(f, q.sync[0].msg.message)) || FrontWanted(q.notify, f) || FrontWanted(q.post, f)
      then LeavesRest(q, p)
      else Makes(Has(q, PaintFlag), Has(q, DeskTimerFlag), q, f, remove, w, p, out)
  {
    NotifyMakes(q, f, remove, w);
    if q.sync == [] && SyncFlag in q.flags {
      var r := q.(flags := q.flags - {SyncFlag});
      NotifyMakes(r, f, remove, w);
      if !FrontWanted(q.notify, f) && !FrontWanted(q.post, f) {
        SameMakes(Has(q, PaintFlag), Has(q, DeskTimerFlag), q, r, f, remove, w,
                PeekNotify(r, f, remove, w).0, PeekNotify(r, f, remove, w).1);
      }
    }
    hide PeekNotify, Makes, Wants;
  }

  // ---- the order of delivery -----------------------------------------------------------

  function Texts(sync: seq<SyncEntry>): (r: seq<Msg>)
    ensures |r| == |sync| && forall i | 0 <= i < |r| :: r[i] == sync[i].msg
  {
    seq(|sync|, i requires 0 <= i < |sync| => sync[i].msg)
  }

  function Pending(q: QState): seq<Msg> {
    Texts(q.sync) + q.notify + q.post
  }

  // What consecutive unfiltered removing peeks made at these moments deliver.
  function Delivered(q: QState, hwnd: Hwnd, ws: seq<World>): seq<Msg>
    requires QueueState.Inv(q)
    decreases |ws|
  {
    if ws == [] then []
    else
      QueueState.PeekKeepsInv(q, hwnd, UNFILTERED, true, ws[0]);
      var (p, out) := PeekPass(q, hwnd, UNFILTERED, true, ws[0]);
      (if out.Deliver? then [out.m] else []) + Delivered(p, hwnd, ws[1..])
  }

  lemma PeekTakesPending(q: QState, hwnd: Hwnd, w: World)
    requires QueueState.Inv(q) && QuitFlag !in q.flags && Pending(q) != []
    ensures var (p, out) := PeekPass(q, hwnd, UNFILTERED, true, w);
      && QuitFlag !in p.flags && out.Deliver? && Pending(q) == [out.m] + Pending(p)
  {
    PeekTakesFirst(q, hwnd, UNFILTERED, true, w);
    hide PeekPass;
    if q.sync != [] {
      assert Texts(q.sync) == [q.sync[0].msg] + Texts(q.sync[1..]);
    } else if q.notify != [] {
      assert q.notify == [q.notify[0]] + q.notify[1..];
    }
  }

  // Sync messages come first, then notifications, then posted messages, each kind in its own
  // order, and nothing comes between them.
  lemma {:induction false} DeliveredInOrder(q: QState, hwnd: Hwnd, ws: seq<World>)
    requires QueueState.Inv(q) && QuitFlag !in q.flags && |ws| == |Pending(q)|
    ensures Delivered(q, hwnd, ws) == Texts(q.sync) + q.notify + q.post
    decreases |ws|
  {
    if ws != [] {
      QueueState.PeekKeepsInv(q, hwnd, UNFILTERED, true, ws[0]);
      PeekTakesPending(q, hwnd, ws[0]);
      hide QueueState.Inv, PeekPass;
      DeliveredInOrder(PeekPass(q, hwnd, UNFILTERED, true, ws[0]).0, hwnd, ws[1..]);
    }
  }

  // Where a new message comes in that order: behind its kind, a prior notification before it.
  lemma NewMessageComes(q: QState, m: Msg, e: SyncEntry)
    ensures Pending(SendNotify(q, m)) == Texts(q.sync) + (q.notify + [m]) + q.post
    ensures Pending(SendPriorNotify(q, m)) == Texts(q.sync) + ([m] + q.notify) + q.post
    ensures Pending(QueueSync(q, e)) == (Texts(q.sync) + [e.msg]) + q.notify + q.post
    ensures QueueMsg(q, m).1 && !HasKey(q.post, m) ==>
              Pending(QueueMsg(q, m).0) == Texts(q.sync) + q.notify + (q.post + [m])
    ensures !QueueMsg(q, m).1 ==> QueueMsg(q, m).0 == q
  {
    assert Texts(q.sync + [e]) == Texts(q.sync) + [e.msg];
  }

  // Everything but one container and its flag is as before.
  predicate OnlyTouches(q: QState, p: QState, flag: Flag) {
    && p.flags - {flag} == q.flags - {flag}
    && (flag != SyncFlag ==> p.sync == q.sync) && (flag != NotifyFlag ==> p.notify == q.notify)
    && (flag != PostFlag ==> p.post == q.post) && (flag != QuitFlag ==> p.loopDepth == q.loopDepth)
    && (p.capacity, p.cursor, p.mask, p.slots) == (q.capacity, q.cursor, q.mask, q.slots)
  }

  // A sender raises the flag of its own kind and touches nothing of another kind; the drain of
  // the sync list takes its first entry, or clears the flag of an empty list.
  lemma SendersTouchTheirOwn(q: QState, m: Msg, e: SyncEntry)
    ensures OnlyTouches(q, SendNotify(q, m), NotifyFlag) && OnlyTouches(q, SendPriorNotify(q, m), NotifyFlag)
    ensures OnlyTouches(q, QueueSync(q, e), SyncFlag) && OnlyTouches(q, QueueMsg(q, m).0, PostFlag)
    ensures OnlyTouches(q, PostPaint(q), PaintFlag) && OnlyTouches(q, PostQuit(q), QuitFlag)
    ensures OnlyTouches(q, AlertDeskTimer(q), DeskTimerFlag) && OnlyTouches(q, DrainSync(q), SyncFlag)
    ensures SyncFlag in q.flags && q.sync != [] ==> q.sync == [q.sync[0]] + DrainSync(q).sync && SyncFlag in DrainSync(q).flags
    ensures SyncFlag !in q.flags ==> DrainSync(q) == q
    ensures q.sync == [] ==> DrainSync(q).sync == [] && SyncFlag !in DrainSync(q).flags
  {
    RaiseOne(q.flags, NotifyFlag);
    RaiseOne(q.flags, SyncFlag);
    RaiseOne(q.flags, PostFlag);
    RaiseOne(q.flags, PaintFlag);
    RaiseOne(q.flags, QuitFlag);
    RaiseOne(q.flags, DeskTimerFlag);
    hide Post;
  }

  lemma RaiseOne(flags: set<Flag>, flag: Flag)
    ensures (flags + {flag}) - {flag} == flags - {flag} && (flags - {flag}) - {flag} == flags - {flag}
  {
  }

  // Throwing away touches the containers and the expired timers only, and of those timers
  // exactly the window's.
  lemma ThrowAwayTouches(q: QState, ws: Windows, target: Hwnd, sync: seq<SyncEntry>, t: nat)
    requires QueueState.Inv(q) && t < |q.mask|
    ensures var p := QueueState.ThrowAway(q, ws, target, sync);
      && (p.flags, p.capacity, p.loopDepth, p.cursor, p.slots) == (q.flags, q.capacity, q.loopDepth, q.cursor, q.slots)
      && p.sync == sync && |p.mask| == |q.mask|
      && (p.mask[t] <==> q.mask[t] && !BelongsTo(ws, q.slots[t].value.hwnd, target))
  {
  }

  // ---- PeekPostMessage -----------------------------------------------------------------

  // It sees the front posted message only, if both bounds are zero or the message lies between
  // them; removing takes that message, and nothing else ever changes.
  lemma PeekPostExactly(q: QState, f: Filter, remove: bool)
    requires QueueState.Inv(q)
    ensures var (p, out) := PeekPost(q, f, remove);
      && (out.Some? <==>
            q.post != [] && ((f.min == 0 && f.max == 0) || f.min <= q.post[0].message <= f.max))
      && (out.Some? && remove ==> q.post == [out.value] + p.post)
      && (out.Some? && !remove ==> out.value == q.post[0])
      && p == q.(post := p.post) && (out.None? || !remove ==> p == q)
  {
  }

  // ---- emptying and the field left behind ------------------------------------------------

  // After emptying there is nothing to deliver, and no timer has lost its slot.
  lemma EmptyIsIdle(q: QState, isDesktop: bool)
    requires QueueState.Inv(q)
    ensures QueueState.Inv(QueueState.Empty(q)) && !HasWork(QueueState.Empty(q), isDesktop)
    ensures (QueueState.Empty(q).slots, QueueState.Empty(q).cursor, QueueState.Empty(q).capacity, QueueState.Empty(q).loopDepth)
         == (q.slots, q.cursor, q.capacity, q.loopDepth)
  {
  }

  predicate Resets(q: QState, f: Filter) {
    q.notify != [] || q.post != [] || (PaintFlag in q.flags && Wants(f, MSG_PAINT))
  }

  lemma PaintLeaves(q: QState, f: Filter, remove: bool, w: World, pad: Option<nat>)
    requires QueueState.Inv(q) && !PeekPaint(q, f, remove, w).1.Deliver?
    ensures PadPaint(q, f, w, pad) == if PaintFlag in q.flags && Wants(f, MSG_PAINT) then None else pad
  {
    hide AnyExpired, QueueState.Inv;
  }

  lemma PostedLeaves(q: QState, f: Filter, remove: bool, w: World, pad: Option<nat>)
    requires QueueState.Inv(q) && !PeekPosted(q, f, remove, w).1.Deliver?
    ensures PadPosted(q, f, w, pad) == if q.post != [] || (PaintFlag in q.flags && Wants(f, MSG_PAINT)) then None else pad
  {
    hide PeekPaint, PadPaint, Wants;
    if q.post != [] {
      PaintLeaves(q, f, remove, w, None);
    } else if PostFlag in q.flags {
      PaintLeaves(q.(flags := q.flags - {PostFlag}), f, remove, w, pad);
    } else {
      PaintLeaves(q, f, remove, w, pad);
    }
  }

  lemma NotifyLeaves(q: QState, f: Filter, remove: bool, w: World, pad: Option<nat>)
    requires QueueState.Inv(q) && !PeekNotify(q, f, remove, w).1.Deliver?
    ensures PadNotify(q, f, w, pad) == if Resets(q, f) then None else pad
  {
    hide PeekPosted, PadPosted, Wants;
    if q.notify != [] {
      PostedLeaves(q, f, remove, w, None);
    } else if NotifyFlag in q.flags {
      PostedLeaves(q.(flags := q.flags - {NotifyFlag}), f, remove, w, pad);
    } else {
      PostedLeaves(q, f, remove, w, pad);
    }
  }

  // What a pass that goes round again leaves in the message's pSyncMsg field: the unwanted first
  // sender, or what was there before, unless a later stage reset it.
  lemma FieldLeftExactly(q: QState, hwnd: Hwnd, f: Filter, remove: bool, w: World, pad: Option<nat>)
    requires QueueState.Inv(q) && QuitFlag !in q.flags && !PeekPass(q, hwnd, f, remove, w).1.Deliver?
    ensures Pad(q, f, w, pad) ==
      if Resets(q, f) then None else if q.sync != [] then Some(q.sync[0].id) else pad
  {
    hide PeekNotify, PadNotify, Wants;
    if q.sync != [] {
      NotifyLeaves(q, f, remove, w, Some(q.sync[0].id));
    } else if SyncFlag in q.flags {
      NotifyLeaves(q.(flags := q.flags - {SyncFlag}), f, remove, w, pad);
    } else {
      NotifyLeaves(q, f, remove, w, pad);
    }
  }

  // ---- senders make work ---------------------------------------------------------------

  // After each of these a peek without a filter comes back with something.
  lemma SendersMakeWork(q: QState, m: Msg, e: SyncEntry, slot: nat, isDesktop: bool)
    requires QueueState.Inv(q) && slot < |q.mask|
    ensures HasWork(SendNotify(q, m), isDesktop) && HasWork(SendPriorNotify(q, m), isDesktop)
    ensures HasWork(QueueSync(q, e), isDesktop) && HasWork(PostPaint(q), isDesktop) && HasWork(PostQuit(q), isDesktop)
    ensures QueueMsg(q, m).1 ==> HasWork(QueueMsg(q, m).0, isDesktop)
    ensures isDesktop ==> HasWork(AlertDeskTimer(q), isDesktop)
    ensures HasWork(q.(mask := q.mask[slot := true]), isDesktop)
  {
    assert q.(mask := q.mask[slot := true]).mask[slot];
  }
}
