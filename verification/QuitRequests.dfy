/** Requests to quit: what a peek does with one, and how often it is reported. */
module QuitRequests {
  import opened Messages
  import opened QueueState

  // With a request pending every peek reports it, whatever else is there. Without removing
  // nothing changes; removing takes one off the depth, and the last one ends the request.
  lemma QuitPeekExactly(q: QState, hwnd: Hwnd, f: Filter, remove: bool, w: World)
    requires Inv(q) && QuitFlag in q.flags
    ensures var (p, out) := PeekPass(q, hwnd, f, remove, w);
      && out == Quit(Msg(hwnd, MSG_QUIT, 0, 0, w.now))
      && (!remove ==> p == q)
      && (remove ==>
            && p.loopDepth == q.loopDepth - 1
            && p.flags == (if q.loopDepth == 1 then q.flags - {QuitFlag} else q.flags)
            && p == q.(loopDepth := p.loopDepth, flags := p.flags))
  {
  }

  // How many of the consecutive removing peeks made at these moments report MSG_QUIT.
  function QuitsIn(q: QState, hwnd: Hwnd, f: Filter, ws: seq<World>): nat
    requires Inv(q)
    decreases |ws|
  {
    if ws == [] then 0
    else
      PeekKeepsInv(q, hwnd, f, true, ws[0]);
      var (p, out) := PeekPass(q, hwnd, f, true, ws[0]);
      (if out.Quit? then 1 else 0) + QuitsIn(p, hwnd, f, ws[1..])
  }

  // Peeks report a pending request as often as the depth says, and then no more.
  lemma {:induction false} QuitsAreDepth(q: QState, hwnd: Hwnd, f: Filter, ws: seq<World>)
    requires Inv(q)
    ensures var depth := if QuitFlag in q.flags then q.loopDepth else 0;
      QuitsIn(q, hwnd, f, ws) == if |ws| < depth then |ws| else depth
    decreases |ws|
  {
    if ws != [] {
      PeekKeepsInv(q, hwnd, f, true, ws[0]);
      if QuitFlag in q.flags {
        QuitPeekExactly(q, hwnd, f, true, ws[0]);
      } else {
        NoQuitPeek(q, hwnd, f, ws[0]);
      }
      hide Inv, PeekPass;
      QuitsAreDepth(PeekPass(q, hwnd, f, true, ws[0]).0, hwnd, f, ws[1..]);
    }
  }

  lemma NoQuitPeek(q: QState, hwnd: Hwnd, f: Filter, w: World)
    requires Inv(q) && QuitFlag !in q.flags
    ensures QuitFlag !in PeekPass(q, hwnd, f, true, w).0.flags && !PeekPass(q, hwnd, f, true, w).1.Quit?
  {
    PeekTakesFirst(q, hwnd, f, true, w);
    hide PeekPass, Wants;
  }

  lemma PostedInv(q: QState)
    requires Inv(q)
    ensures Inv(PostQuit(q)) && Inv(Empty(q))
  {
  }

  // A new request is reported exactly once, however often the owner peeks, if and only if no
  // depth was left over.
  lemma OnePeekPerQuit(q: QState, hwnd: Hwnd, f: Filter, ws: seq<World>)
    requires Inv(q) && QuitFlag !in q.flags && |ws| >= 2
    ensures Inv(PostQuit(q)) && (QuitsIn(PostQuit(q), hwnd, f, ws) == 1 <==> q.loopDepth == 0)
  {
    PostedInv(q);
    QuitsAreDepth(PostQuit(q), hwnd, f, ws);
  }

  // Emptying a queue leaves the depth of an unreported request, and the next one is reported
  // that many times more.
  lemma EmptyLeavesDepth(q: QState, hwnd: Hwnd, f: Filter, ws: seq<World>)
    requires Inv(q) && QuitFlag in q.flags && |ws| > q.loopDepth
    ensures Inv(PostQuit(Empty(q))) && QuitsIn(PostQuit(Empty(q)), hwnd, f, ws) == q.loopDepth + 1
  {
    PostedInv(q);
    PostedInv(Empty(q));
    QuitsAreDepth(PostQuit(Empty(q)), hwnd, f, ws);
  }

  // A second request before the first is reported adds nothing.
  lemma SecondQuitAddsNothing(q: QState)
    requires QuitFlag in q.flags
    ensures PostQuit(q) == q
  {
  }
}
