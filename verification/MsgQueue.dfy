/**
 The message queue structure itself: the flag word, the circular buffer, the two linked lists
 and the timer fields. Every method is one critical section of the source and is tied to the
 function of QueueState that says what it does to the abstract queue.
 */
module MsgQueue {
  import opened Common
  import opened Messages
  import opened QueueState
  import opened QueueFlags
  import opened Bits
  import Circle
  import TimerSlots
  import PostRing
  import NotifyList
  import SyncMessages
  import SyncWalk

  function Entries(ids: seq<nat>, msgs: seq<Msg>): (r: seq<SyncEntry>)
    requires |ids| == |msgs|
    ensures |r| == |ids|
  {
    seq(|ids|, i requires 0 <= i < |ids| => SyncEntry(ids[i], msgs[i]))
  }

  lemma EntriesFirst(id: nat, m: Msg, ids: seq<nat>, msgs: seq<Msg>)
    requires |ids| == |msgs|
    ensures Entries([id] + ids, [m] + msgs) == [SyncEntry(id, m)] + Entries(ids, msgs)
  {
  }

  lemma EntriesDrop(ids: seq<nat>, msgs: seq<Msg>, n: nat)
    requires n <= |ids| == |msgs|
    ensures Entries(ids[n..], msgs[n..]) == Entries(ids, msgs)[n..]
  {
  }

  ghost function NodeId(node: SyncMessages.SyncMsg?): Option<nat> {
    if node == null then None else Some(node.id)
  }

  class Queue {
    const ring: PostRing.Ring
    const notify: NotifyList.List
    const sync: SyncMessages.SyncQueue
    var dwState: bv32
    var loopDepth: int
    var firstTimerSlot: nat
    var expired: seq<bool>
    var timerSlots: seq<Option<Timer>>

    ghost function Footprint(): set<object>
      reads this, ring, notify, sync
    {
      {this, ring, ring.msg, notify, sync, sync.list} + (set n | n in notify.nodes) + (set n | n in sync.senders)
    }

    ghost predicate Valid()
      reads Footprint(), sync.list.linked
    {
      && ring.Valid() && notify.Valid() && sync.Valid()
      && firstTimerSlot < |expired| == |timerSlots|
    }

    ghost function Abs(): QState
      reads Footprint(), sync.list.linked
      requires Valid()
    {
      QState(FlagsOf(dwState), notify.contents, Entries(sync.state.chain, sync.list.msgs),
             ring.Contents(), ring.Capacity(), loopDepth, firstTimerSlot, expired, timerSlots)
    }

    // mg_InitMsgQueue, given the empty parts.
    constructor (ring: PostRing.Ring, notify: NotifyList.List, sync: SyncMessages.SyncQueue, timers: nat)
      requires ring.Valid() && ring.Contents() == []
      requires notify.Valid() && notify.contents == []
      requires sync.Valid() && sync.state == SyncMessages.INITIAL
      requires 0 < timers
      ensures Valid() && Abs() == InitQueue(ring.Capacity(), timers)
      ensures this.ring == ring && this.notify == notify && this.sync == sync
    {
      this.ring, this.notify, this.sync := ring, notify, sync;
      dwState, loopDepth, firstTimerSlot := QS_EMPTY, 0, 0;
      expired := seq(timers, i => false);
      timerSlots := seq(timers, i => None);
      new;
      hide FlagsOf, PostRing.View, SyncMessages.Inv;
      NoBits();
    }

    method Raise(f: Flag)
      requires Valid()
      modifies `dwState
      ensures Valid() && Abs() == old(Abs()).(flags := old(Abs()).flags + {f})
    {
      hide Bit, FlagsOf, Raised;
      RaiseBit(dwState, f);
      dwState := Raised(dwState, Bit(f));
    }

    method Clear(f: Flag)
      requires Valid()
      modifies `dwState
      ensures Valid() && Abs() == old(Abs()).(flags := old(Abs()).flags - {f})
    {
      hide Bit, FlagsOf, Cleared;
      ClearBit(dwState, f);
      dwState := Cleared(dwState, Bit(f));
    }

    predicate IsSet(f: Flag)
      reads `dwState
    {
      Test(dwState, Bit(f))
    }

    // ---- PeekMessageEx, stage by stage ---------------------------------------------------

    method PeekTimer(f: Filter, w: World, pad: SyncMessages.SyncMsg?)
      returns (out: Outcome, node: SyncMessages.SyncMsg?)
      requires Valid()
      modifies `firstTimerSlot, `expired
      ensures Valid() && (Abs(), out) == QueueState.PeekTimer(old(Abs()), f, w)
      ensures NodeId(node) == QueueState.PadTimer(old(Abs()), f, w, NodeId(pad))
    {
      hide PostRing.View, FlagsOf, Entries, PostRing.Ring.Valid, NotifyList.List.Valid, SyncMessages.SyncQueue.Valid;
      out, node := Nothing, pad;
      if (exists t | 0 <= t < |expired| :: expired[t]) && Wants(f, MSG_TIMER) {
        var slot := TimerSlots.FindExpired(expired, firstTimerSlot);
        assert slot != -1;
        Circle.ServesUnique(expired, firstTimerSlot, slot, Circle.ServedSlot(expired, firstTimerSlot));
        firstTimerSlot := Circle.Next(|expired|, firstTimerSlot);
        if timerSlots[slot].Some? {
          var timer := timerSlots[slot].value;
          expired := expired[slot := false];
          if timer.hasProc {
            out := CallTimer(slot);
          } else {
            out, node := Deliver(Msg(timer.hwnd, MSG_TIMER, timer.id, timer.ticksFired, w.now), false), null;
          }
        }
      }
    }

    method PeekDeskTimer(f: Filter, remove: bool, w: World, pad: SyncMessages.SyncMsg?)
      returns (out: Outcome, node: SyncMessages.SyncMsg?)
      requires Valid()
      modifies `firstTimerSlot, `expired, `dwState
      ensures Valid() && (Abs(), out) == QueueState.PeekDeskTimer(old(Abs()), f, remove, w)
      ensures NodeId(node) == QueueState.PadDeskTimer(old(Abs()), f, w, NodeId(pad))
    {
      hide QueueState.PeekTimer, QueueState.PadTimer;
      if w.isDesktop && IsSet(DeskTimerFlag) {
        if remove {
          Clear(DeskTimerFlag);
        }
        out, node := Deliver(Msg(w.desktop, MSG_TIMEOUT, 0, 0, w.now), false), pad;
      } else {
        out, node := PeekTimer(f, w, pad);
      }
    }

    method PeekPaint(f: Filter, remove: bool, w: World, pad: SyncMessages.SyncMsg?)
      returns (out: Outcome, node: SyncMessages.SyncMsg?)
      requires Valid()
      modifies `firstTimerSlot, `expired, `dwState
      ensures Valid() && (Abs(), out) == QueueState.PeekPaint(old(Abs()), f, remove, w)
      ensures NodeId(node) == QueueState.PadPaint(old(Abs()), f, w, NodeId(pad))
    {
      hide QueueState.PeekDeskTimer, QueueState.PadDeskTimer;
      node := pad;
      if IsSet(PaintFlag) && Wants(f, MSG_PAINT) {
        node := null;
        if w.needPaint != HWND_NULL {
          return Deliver(Msg(w.needPaint, MSG_PAINT, 0, w.region, w.now), false), node;
        }
        Clear(PaintFlag);
      }
      out, node := PeekDeskTimer(f, remove, w, node);
    }

    method PeekPosted(f: Filter, remove: bool, w: World, pad: SyncMessages.SyncMsg?)
      returns (out: Outcome, node: SyncMessages.SyncMsg?)
      requires Valid()
      modifies `firstTimerSlot, `expired, `dwState, ring`readpos
      ensures Valid() && (Abs(), out) == QueueState.PeekPosted(old(Abs()), f, remove, w)
      ensures NodeId(node) == QueueState.PadPosted(old(Abs()), f, w, NodeId(pad))
    {
      hide QueueState.PeekPaint, QueueState.PadPaint, PostRing.View;
      FlagMeans(PostFlag);
      node := pad;
      if IsSet(PostFlag) {
        if !ring.IsEmpty() {
          var m := ring.Front();
          node := null;
          if Wants(f, m.message) {
            if remove {
              m := ring.Dequeue();
            }
            return Deliver(m, false), node;
          }
        } else {
          Clear(PostFlag);
        }
      }
      out, node := PeekPaint(f, remove, w, node);
    }

    method PeekNotify(f: Filter, remove: bool, w: World, pad: SyncMessages.SyncMsg?)
      returns (out: Outcome, node: SyncMessages.SyncMsg?)
      requires Valid()
      modifies `firstTimerSlot, `expired, `dwState, ring`readpos, notify
      ensures Valid() && (Abs(), out) == QueueState.PeekNotify(old(Abs()), f, remove, w)
      ensures NodeId(node) == QueueState.PadNotify(old(Abs()), f, w, NodeId(pad))
    {
      hide QueueState.PeekPosted, QueueState.PadPosted, PostRing.View;
      FlagMeans(NotifyFlag);
      node := pad;
      if IsSet(NotifyFlag) {
        if notify.first != null {
          var m := notify.first.msg;
          node := null;
          if Wants(f, m.message) {
            if remove {
              m := notify.RemoveFirst();
            }
            return Deliver(m, false), node;
          }
        } else {
          Clear(NotifyFlag);
        }
      }
      out, node := PeekPosted(f, remove, w, node);
    }

    lemma HeadMeans()
      requires Valid()
      ensures sync.list.pFirst == null <==> Abs().sync == []
      ensures sync.list.pFirst != null ==>
                SyncEntry(sync.list.pFirst.id, sync.list.pFirst.msg) == Abs().sync[0]
    {
    }

    method RemoveSync() returns (node: SyncMessages.SyncMsg)
      requires Valid() && sync.list.pFirst != null
      modifies sync, sync.list
      ensures Valid() && old(Abs()) == Abs().(sync := [SyncEntry(node.id, node.msg)] + Abs().sync)
    {
      hide PostRing.View, FlagsOf, Entries, PostRing.Ring.Valid, NotifyList.List.Valid, SyncMessages.Inv,
           SyncMessages.SyncQueue.Booked;
      ghost var chain := sync.state.chain;
      SyncTexts();
      node := sync.PeekRemove();
      SyncTexts();
      assert chain == [node.id] + sync.state.chain;
      EntriesFirst(node.id, node.msg, sync.state.chain, sync.list.msgs);
    }

    method PeekSync(f: Filter, remove: bool, w: World, pad: SyncMessages.SyncMsg?)
      returns (out: Outcome, node: SyncMessages.SyncMsg?)
      requires Valid()
      modifies `firstTimerSlot, `expired, `dwState, ring`readpos, notify, sync, sync.list
      ensures Valid() && (Abs(), out) == QueueState.PeekSync(old(Abs()), f, remove, w)
      ensures NodeId(node) == QueueState.PadSync(old(Abs()), f, w, NodeId(pad))
    {
      hide QueueState.PeekNotify, QueueState.PadNotify, Queue.Abs, Queue.IsSet;
      HeadMeans();
      FlagMeans(SyncFlag);
      node := pad;
      if IsSet(SyncFlag) {
        var head := sync.list.pFirst;
        if head != null {
          var m := head.msg;
          node := head;
          if Wants(f, m.message) {
            if remove {
              node := RemoveSync();
            }
            return Deliver(m, true), node;
          }
        } else {
          Clear(SyncFlag);
        }
      }
      out, node := PeekNotify(f, remove, w, node);
    }

    // `pad` is the message's pSyncMsg field when the pass begins, and `node` when it ends.
    method PeekPass(hwnd: Hwnd, f: Filter, remove: bool, w: World, pad: SyncMessages.SyncMsg?)
      returns (out: Outcome, node: SyncMessages.SyncMsg?)
      requires Valid()
      modifies this, ring`readpos, notify, sync, sync.list
      ensures Valid() && (Abs(), out) == QueueState.PeekPass(old(Abs()), hwnd, f, remove, w)
      ensures NodeId(node) == QueueState.Pad(old(Abs()), f, w, NodeId(pad))
    {
      hide QueueState.PeekSync, QueueState.PadSync, PostRing.View;
      if IsSet(QuitFlag) {
        if remove {
          loopDepth := loopDepth - 1;
          if loopDepth == 0 {
            Clear(QuitFlag);
          }
        }
        return Quit(Msg(hwnd, MSG_QUIT, 0, 0, w.now)), null;
      }
      out, node := PeekSync(f, remove, w, pad);
    }

    // ---- senders -------------------------------------------------------------------------

    // kernel_QueueMessage.
    method QueueMsg(m: Msg, now: int) returns (ok: bool)
      requires Valid()
      modifies `dwState, ring, ring.msg
      ensures Valid() && ring.msg == old(ring.msg)
      ensures (Abs(), ok) == QueueState.QueueMsg(old(Abs()), m.(time := now))
    {
      hide PostRing.View, PostRing.Post;
      ok := ring.Queue(m.(time := now));
      if ok {
        Raise(PostFlag);
      }
    }

    method SendNotify(m: Msg)
      requires Valid()
      modifies `dwState, notify, notify.nodes
      ensures Valid() && Abs() == QueueState.SendNotify(old(Abs()), m)
      ensures fresh(Footprint() - old(Footprint()))
    {
      notify.Append(m);
      Raise(NotifyFlag);
    }

    method SendPriorNotify(m: Msg)
      requires Valid()
      modifies `dwState, notify
      ensures Valid() && Abs() == QueueState.SendPriorNotify(old(Abs()), m)
      ensures fresh(Footprint() - old(Footprint()))
    {
      notify.Prepend(m);
      Raise(NotifyFlag);
    }

    method QueueSync(m: Msg) returns (node: SyncMessages.SyncMsg)
      requires Valid()
      modifies `dwState, sync, sync.list, sync.senders
      ensures Valid() && Abs() == QueueState.QueueSync(old(Abs()), SyncEntry(node.id, m))
      ensures fresh(node) && fresh(Footprint() - old(Footprint()))
    {
      hide PostRing.View, FlagsOf, SyncMessages.Inv, PostRing.Ring.Valid, NotifyList.List.Valid;
      node := sync.Send(m);
      Raise(SyncFlag);
    }

    method PostPaint()
      requires Valid()
      modifies `dwState
      ensures Valid() && Abs() == QueueState.PostPaint(old(Abs()))
    {
      Raise(PaintFlag);
    }

    method PostQuit()
      requires Valid()
      modifies `dwState, `loopDepth
      ensures Valid() && Abs() == QueueState.PostQuit(old(Abs()))
    {
      if !IsSet(QuitFlag) {
        loopDepth := loopDepth + 1;
        Raise(QuitFlag);
      }
    }

    // ---- the owner -----------------------------------------------------------------------

    method PeekPost(f: Filter, remove: bool) returns (out: Option<Msg>)
      requires Valid()
      modifies ring`readpos
      ensures Valid() && (Abs(), out) == QueueState.PeekPost(old(Abs()), f, remove)
    {
      hide PostRing.View;
      out := None;
      if IsSet(PostFlag) && !ring.IsEmpty() {
        var m := ring.Front();
        if PostRing.IsWantedPost(f.min, f.max, m.message) {
          if remove {
            m := ring.Dequeue();
          }
          out := Some(m);
        }
      }
    }

    // One round of the drain loop in SendSyncMessage, without the dispatch.
    method DrainSync() returns (node: SyncMessages.SyncMsg?)
      requires Valid()
      modifies `dwState, sync, sync.list
      ensures Valid() && Abs() == QueueState.DrainSync(old(Abs()))
      ensures node != null <==> SyncFlag in old(Abs()).flags && old(Abs()).sync != []
      ensures node != null ==> SyncEntry(node.id, node.msg) == old(Abs()).sync[0]
    {
      hide Queue.Abs, Queue.IsSet;
      HeadMeans();
      FlagMeans(SyncFlag);
      node := null;
      if IsSet(SyncFlag) {
        if sync.list.pFirst != null {
          node := RemoveSync();
        } else {
          Clear(SyncFlag);
        }
      }
    }

    method Empty()
      requires Valid()
      modifies this, ring, notify, sync, sync.list, sync.senders
      ensures Valid() && Abs() == QueueState.Empty(old(Abs())) && ring.msg == old(ring.msg)
    {
      hide PostRing.View, FlagsOf, SyncMessages.Inv, NotifyList.List.Valid, SyncMessages.SyncQueue.Valid;
      sync.CancelAll();
      notify.Empty();
      ring.Empty();
      NoBits();
      dwState := QS_EMPTY;
      expired := seq(|expired|, i => false);
    }

    // The last loop of __mg_throw_away_messages.
    method ClearTimers(ws: Windows, target: Hwnd)
      requires Valid() && QueueState.Inv(Abs())
      modifies `expired
      ensures Valid()
      ensures Abs() == old(Abs()).(mask := QueueState.ClearTimers(old(Abs()), ws, target))
    {
      hide BelongsTo, PostRing.View, FlagsOf;
      ghost var q := Abs();
      for slot := 0 to |expired|
        invariant |expired| == |timerSlots|
        invariant forall t | 0 <= t < slot :: expired[t] == QueueState.ClearTimers(q, ws, target)[t]
        invariant forall t | slot <= t < |expired| :: expired[t] == q.mask[t]
      {
        if expired[slot] {
          assert q.mask[slot];
          if BelongsTo(ws, timerSlots[slot].value.hwnd, target) {
            expired := expired[slot := false];
          }
        }
      }
    }

    method ThrowNotify(ws: Windows, target: Hwnd) returns (count: nat)
      requires Valid()
      modifies notify, notify.nodes
      ensures Valid() && Abs() == old(Abs()).(notify := Keep(ws, target, old(Abs()).notify))
      ensures count == |old(Abs()).notify| - |Abs().notify|
    {
      hide PostRing.View, FlagsOf, Keep;
      count := notify.ThrowAway(ws, target);
    }

    method ThrowPosted(ws: Windows, target: Hwnd) returns (count: nat)
      requires Valid()
      modifies ring, ring.msg
      ensures Valid() && Abs() == old(Abs()).(post := Keep(ws, target, old(Abs()).post))
      ensures count == |old(Abs()).post| - |Abs().post| && ring.msg == old(ring.msg)
    {
      hide PostRing.View, FlagsOf, Keep;
      count := ring.ThrowAway(ws, target);
    }

    // The sync list is valid afterwards when the matching messages came first.
    method ThrowSync(ws: Windows, target: Hwnd) returns (count: nat, ghost trace: seq<SyncWalk.Access>)
      requires Valid()
      modifies sync, sync.list, sync.senders
      ensures var ms := SyncMessages.Matching(ws, target, old(sync.list.msgs));
        && trace == SyncWalk.Trace(ms, |ms|)
        && |ms| == |old(Abs()).sync| == |old(sync.list.linked)|
        && sync.list.Reaches() && count == SyncWalk.Marked(ms, |ms|)
        && sync.list.linked == SyncMessages.Pick(old(sync.list.linked), SyncWalk.Survivors(ms, |ms|))
        && (SyncWalk.MatchesFirst(ms) ==>
              && Valid() && count <= |ms|
              && (forall i | 0 <= i < |ms| :: ms[i] <==> i < count)
              && Abs() == old(Abs()).(sync := old(Abs()).sync[count..]))
    {
      hide PostRing.View, FlagsOf, SyncMessages.Inv, SyncMessages.CancelHeads, SyncWalk.Trace,
           SyncWalk.Survivors, SyncWalk.MatchesFirst, BelongsTo, Entries, PostRing.Ring.Valid, NotifyList.List.Valid,
           SyncMessages.SyncQueue.Valid;
      SyncTexts();
      ghost var chain, msgs := sync.state.chain, sync.list.msgs;
      count, trace := sync.ThrowAway(ws, target);
      if count <= |msgs| {
        EntriesDrop(chain, msgs, count);
      }
    }

    // __mg_throw_away_messages; the four parts do not interact. Only the sync list can come out
    // of it damaged, when the matching nodes are not at its front.
    method ThrowAway(ws: Windows, target: Hwnd) returns (count: nat, ghost nSync: nat)
      requires Valid() && QueueState.Inv(Abs())
      modifies this, ring, ring.msg, notify, notify.nodes, sync, sync.list, sync.senders
      ensures ring.Valid() && ring.Contents() == Keep(ws, target, old(Abs()).post)
      ensures notify.Valid() && notify.contents == Keep(ws, target, old(Abs()).notify)
      ensures expired == QueueState.ClearTimers(old(Abs()), ws, target)
      ensures var ms := SyncMessages.Matching(ws, target, old(sync.list.msgs));
        && |ms| == |old(sync.list.linked)| && nSync == SyncWalk.Marked(ms, |ms|)
        && sync.list.Reaches()
        && sync.list.linked == SyncMessages.Pick(old(sync.list.linked), SyncWalk.Survivors(ms, |ms|))
        && (SyncWalk.MatchesFirst(ms) ==>
              && Valid() && nSync <= |old(Abs()).sync|
              && Abs() == QueueState.ThrowAway(old(Abs()), ws, target, old(Abs()).sync[nSync..])
              && forall i | 0 <= i < |ms| :: ms[i] <==> i < nSync)
      ensures count == |old(Abs()).notify| - |notify.contents| + nSync + |old(Abs()).post| - |ring.Contents()|
    {
      hide Keep, BelongsTo, SyncWalk.MatchesFirst, SyncWalk.Trace, SyncWalk.Marked, SyncWalk.Survivors,
           SyncMessages.Pick, QueueState.Inv, QueueState.ClearTimers, PostRing.View, FlagsOf, Entries,
           PostRing.Ring.Valid, NotifyList.List.Valid, SyncMessages.SyncQueue.Valid, SyncMessages.SyncList.Reaches;
      SyncTexts();
      var n := ThrowOthers(ws, target);
      SyncTexts();
      var k, _ := ThrowSync(ws, target);
      count, nSync := n + k, k;
    }

    method ThrowOthers(ws: Windows, target: Hwnd) returns (count: nat)
      requires Valid() && QueueState.Inv(Abs())
      modifies `expired, ring, ring.msg, notify, notify.nodes
      ensures Valid()
      ensures Abs() == QueueState.ThrowAway(old(Abs()), ws, target, old(Abs()).sync)
      ensures count == |old(Abs()).notify| - |Abs().notify| + |old(Abs()).post| - |Abs().post|
    {
      hide Queue.Abs, Queue.Valid, Keep, BelongsTo, QueueState.Inv, QueueState.ClearTimers;
      ClearTimers(ws, target);
      var n := ThrowNotify(ws, target);
      var p := ThrowPosted(ws, target);
      count := n + p;
    }

    lemma SyncTexts()
      requires Valid()
      ensures |sync.state.chain| == |sync.list.msgs|
      ensures |Abs().sync| == |sync.list.msgs|
      ensures forall i | 0 <= i < |sync.list.msgs| :: Abs().sync[i].msg == sync.list.msgs[i]
    {
    }

    // ---- the two "is there work" tests ---------------------------------------------------

    predicate TestSync()
      reads this, sync, sync.list
    {
      IsSet(SyncFlag) && sync.list.pFirst != null
    }

    predicate TestNotify()
      reads this, notify
    {
      IsSet(NotifyFlag) && notify.first != null
    }

    predicate TestPosted()
      reads this, ring
    {
      IsSet(PostFlag) && ring.readpos != ring.writepos
    }

    predicate TestExpired()
      reads this
    {
      exists t | 0 <= t < |expired| :: expired[t]
    }

    // What the four tests say about the abstract queue.
    lemma TestsMean()
      requires Valid()
      ensures TestSync() <==> SyncFlag in Abs().flags && Abs().sync != []
      ensures TestNotify() <==> NotifyFlag in Abs().flags && Abs().notify != []
      ensures TestPosted() <==> PostFlag in Abs().flags && Abs().post != []
      ensures TestExpired() <==> AnyExpired(Abs())
    {
    }

    lemma FlagMeans(f: Flag)
      requires Valid()
      ensures IsSet(f) <==> f in Abs().flags
    {
    }

    method HavePending(isDesktop: bool, noDeskTimer: bool) returns (b: bool)
      requires Valid()
      ensures b == QueueState.HavePending(Abs(), isDesktop, noDeskTimer)
    {
      hide Queue.Abs, Queue.IsSet, Queue.TestSync, Queue.TestNotify, Queue.TestPosted, Queue.TestExpired, AnyExpired;
      TestsMean();
      FlagMeans(QuitFlag);
      FlagMeans(PaintFlag);
      FlagMeans(DeskTimerFlag);
      if TestSync() { return true; }
      if TestNotify() { return true; }
      if TestPosted() { return true; }
      if IsSet(QuitFlag) || IsSet(PaintFlag) { return true; }
      if TestExpired() { return true; }
      return !noDeskTimer && isDesktop && IsSet(DeskTimerFlag);
    }

    method WaitTest(isDesktop: bool) returns (b: bool)
      requires Valid()
      ensures b == QueueState.WaitTest(Abs(), isDesktop)
    {
      hide Queue.Abs, Queue.IsSet, Queue.TestSync, Queue.TestNotify, Queue.TestPosted, Queue.TestExpired, AnyExpired;
      TestsMean();
      FlagMeans(QuitFlag);
      FlagMeans(PaintFlag);
      FlagMeans(DeskTimerFlag);
      if IsSet(QuitFlag) { return true; }
      if TestSync() { return true; }
      if TestNotify() { return true; }
      if TestPosted() { return true; }
      if IsSet(PaintFlag) { return true; }
      if isDesktop && IsSet(DeskTimerFlag) { return true; }
      return TestExpired();
    }
  }
}
