/**
 The two ends of the conversation as they work on their streams: the client's request with the
 loop that reads up to its reply, and the server's handling of one request.
 */
module Endpoints {
  import opened Common
  import opened Wire
  import opened Framing

  const MSG_UPDATECLIWIN := 0x0148
  const HWND_NULL := 0
  const LIVE_INTERVAL := 100

  // What the client does with a message that is not a reply.
  datatype Action =
    | SayLive(msg: WireMsg)
    | Update(msg: WireMsg)
    | ToDesktop(msg: WireMsg)
    | ToWindow(msg: WireMsg)
    | Drop(msg: WireMsg)

  // `mine` tells the windows of this client.
  function ActionOf(m: WireMsg, mine: nat -> bool): Action {
    if m.message == MSG_WAKEUP_CLIENT then SayLive(m)
    else if m.message == MSG_UPDATECLIWIN && mine(m.hwnd) then Update(m)
    else if m.hwnd == HWND_NULL then ToDesktop(m)
    else if mine(m.hwnd) then ToWindow(m)
    else Drop(m)
  }

  // What a client has written, done and remembered.
  datatype Side = Side(out: bytes, done: seq<Action>, lastTicks: nat)

  function Live(s: Side, woken: bool, tick: nat): Side {
    if woken || tick > s.lastTicks + LIVE_INTERVAL then
      s.(out := s.out + PutRequest(LiveRequest(tick)), lastTicks := tick)
    else s
  }

  function Process(s: Side, m: WireMsg, tick: nat, mine: nat -> bool): Side {
    var t := s.(done := s.done + [ActionOf(m, mine)]);
    if m.message == MSG_WAKEUP_CLIENT then Live(t, true, tick) else t
  }

  // The messages of `ms` in order; `clock(n)` is the time when the n-th is handled.
  function ProcessAll(s: Side, ms: seq<WireMsg>, clock: nat -> nat, mine: nat -> bool): Side {
    if ms == [] then s
    else
      var n := |ms| - 1;
      Process(ProcessAll(s, ms[..n], clock, mine), ms[n], clock(n), mine)
  }

  function Actions(ms: seq<WireMsg>, mine: nat -> bool): (r: seq<Action>)
    ensures |r| == |ms| && forall k | 0 <= k < |r| :: r[k] == ActionOf(ms[k], mine)
  {
    seq(|ms|, k requires 0 <= k < |ms| => ActionOf(ms[k], mine))
  }

  // One IAMLIVE request for each wake-up message.
  function Lives(ms: seq<WireMsg>, clock: nat -> nat): seq<Request> {
    if ms == [] then []
    else
      var n := |ms| - 1;
      Lives(ms[..n], clock) + if ms[n].message == MSG_WAKEUP_CLIENT then [LiveRequest(clock(n))] else []
  }

  // Handling messages does each one's action in order, and writes whole IAMLIVE requests.
  lemma {:induction false} ProcessAllIs(s: Side, ms: seq<WireMsg>, clock: nat -> nat, mine: nat -> bool)
    ensures ProcessAll(s, ms, clock, mine).done == s.done + Actions(ms, mine)
    ensures ProcessAll(s, ms, clock, mine).out == s.out + PutRequests(Lives(ms, clock))
  {
    if ms != [] {
      var n := |ms| - 1;
      ProcessAllIs(s, ms[..n], clock, mine);
      assert Actions(ms, mine) == Actions(ms[..n], mine) + [ActionOf(ms[n], mine)];
      LivesAppend(ms, clock);
      ProcessOne(ProcessAll(s, ms[..n], clock, mine), ms[n], clock(n), mine);
      hide Process, PutRequest, LiveRequest, PutRequests, Lives, Actions, ActionOf;
    }
  }

  lemma ProcessOne(s: Side, m: WireMsg, tick: nat, mine: nat -> bool)
    ensures Process(s, m, tick, mine).done == s.done + [ActionOf(m, mine)]
    ensures Process(s, m, tick, mine).out
         == s.out + if m.message == MSG_WAKEUP_CLIENT then PutRequest(LiveRequest(tick)) else []
  {
    hide PutRequest, LiveRequest, ActionOf;
  }

  lemma LivesAppend(ms: seq<WireMsg>, clock: nat -> nat)
    requires ms != []
    ensures var n := |ms| - 1;
      PutRequests(Lives(ms, clock)) ==
      PutRequests(Lives(ms[..n], clock))
      + if ms[n].message == MSG_WAKEUP_CLIENT then PutRequest(LiveRequest(clock(n))) else []
  {
    hide PutRequest, LiveRequest, PutRequests;
    var n := |ms| - 1;
    var init := Lives(ms[..n], clock);
    if ms[n].message == MSG_WAKEUP_CLIENT {
      RequestsAppend(init, LiveRequest(clock(n)));
    } else {
      assert Lives(ms, clock) == init;
    }
  }

  // ---- which message goes where --------------------------------------------------------

  datatype Kind = WakeUp | Repaint | ForDesktop | ForWindow | Foreign

  // A wake-up is answered; an update of an own window is a repaint; of the others, those for
  // the null window go to the desktop, those for own windows to them, and the rest nowhere.
  predicate IsOf(kind: Kind, m: WireMsg, mine: nat -> bool) {
    match kind
    case WakeUp => m.message == 0x014C
    case Repaint => m.message == 0x0148 && mine(m.hwnd)
    case ForDesktop => m.hwnd == 0 && m.message != 0x014C && !(m.message == 0x0148 && mine(0))
    case ForWindow => mine(m.hwnd) && m.hwnd != 0 && m.message != 0x014C && m.message != 0x0148
    case Foreign => !mine(m.hwnd) && m.hwnd != 0 && m.message != 0x014C
  }

  function Select(ms: seq<WireMsg>, kind: Kind, mine: nat -> bool): seq<WireMsg> {
    if ms == [] then []
    else
      var last := ms[|ms| - 1];
      Select(ms[..|ms| - 1], kind, mine) + if IsOf(kind, last, mine) then [last] else []
  }

  predicate Treats(a: Action, kind: Kind) {
    match kind
    case WakeUp => a.SayLive?
    case Repaint => a.Update?
    case ForDesktop => a.ToDesktop?
    case ForWindow => a.ToWindow?
    case Foreign => a.Drop?
  }

  // The messages to which the actions for one kind were done.
  function DoneTo(done: seq<Action>, kind: Kind): seq<WireMsg> {
    if done == [] then []
    else
      var last := done[|done| - 1];
      DoneTo(done[..|done| - 1], kind) + if Treats(last, kind) then [last.msg] else []
  }

  // Of every kind, exactly the messages of that kind among `ms` were treated so, in order.
  ghost predicate Sorted(before: seq<Action>, after: seq<Action>, ms: seq<WireMsg>, mine: nat -> bool) {
    forall kind :: DoneTo(after, kind) == DoneTo(before, kind) + Select(ms, kind, mine)
  }

  lemma KindDecides(m: WireMsg, mine: nat -> bool, kind: Kind)
    ensures Treats(ActionOf(m, mine), kind) <==> IsOf(kind, m, mine)
    ensures ActionOf(m, mine).msg == m
  {
  }

  lemma DoneAppend(done: seq<Action>, a: Action, kind: Kind)
    ensures DoneTo(done + [a], kind) == DoneTo(done, kind) + if Treats(a, kind) then [a.msg] else []
  {
    assert (done + [a])[..|done|] == done;
  }

  lemma SelectLast(ms: seq<WireMsg>, kind: Kind, mine: nat -> bool)
    requires ms != []
    ensures var n := |ms| - 1;
      Select(ms, kind, mine) == Select(ms[..n], kind, mine) + if IsOf(kind, ms[n], mine) then [ms[n]] else []
  {
  }

  lemma ActionsLast(before: seq<Action>, ms: seq<WireMsg>, mine: nat -> bool)
    requires ms != []
    ensures var n := |ms| - 1;
      before + Actions(ms, mine) == before + Actions(ms[..n], mine) + [ActionOf(ms[n], mine)]
  {
    var n := |ms| - 1;
    assert Actions(ms, mine) == Actions(ms[..n], mine) + [ActionOf(ms[n], mine)];
    hide ActionOf;
  }

  lemma {:induction false} AllSortedAs(before: seq<Action>, ms: seq<WireMsg>, mine: nat -> bool, kind: Kind)
    ensures DoneTo(before + Actions(ms, mine), kind) == DoneTo(before, kind) + Select(ms, kind, mine)
  {
    if ms == [] {
      assert before + Actions(ms, mine) == before;
    } else {
      var n := |ms| - 1;
      var init := before + Actions(ms[..n], mine);
      AllSortedAs(before, ms[..n], mine, kind);
      ActionsLast(before, ms, mine);
      DoneAppend(init, ActionOf(ms[n], mine), kind);
      KindDecides(ms[n], mine, kind);
      SelectLast(ms, kind, mine);
      hide Actions, ActionOf, DoneTo, Select, Treats, IsOf;
    }
  }

  // Every message goes where it belongs, and the messages of each kind in their order.
  lemma AllSorted(before: seq<Action>, ms: seq<WireMsg>, mine: nat -> bool)
    ensures Sorted(before, before + Actions(ms, mine), ms, mine)
  {
    forall kind
      ensures DoneTo(before + Actions(ms, mine), kind) == DoneTo(before, kind) + Select(ms, kind, mine)
    {
      AllSortedAs(before, ms, mine, kind);
    }
  }

  // The same of all messages that the client handles, one after the other.
  lemma ProcessSorts(s: Side, ms: seq<WireMsg>, clock: nat -> nat, mine: nat -> bool)
    ensures Sorted(s.done, ProcessAll(s, ms, clock, mine).done, ms, mine)
    ensures |ProcessAll(s, ms, clock, mine).done| == |s.done| + |ms|
    ensures |Lives(ms, clock)| == |Select(ms, WakeUp, mine)|
  {
    ProcessAllIs(s, ms, clock, mine);
    AllSorted(s.done, ms, mine);
    OneLiveEach(ms, clock, mine);
    hide Sorted, ProcessAll;
  }

  lemma {:induction false} OneLiveEach(ms: seq<WireMsg>, clock: nat -> nat, mine: nat -> bool)
    ensures |Lives(ms, clock)| == |Select(ms, WakeUp, mine)|
  {
    if ms != [] { OneLiveEach(ms[..|ms| - 1], clock, mine); }
  }

  // Handling a message writes what the protocol's read step writes.
  lemma ProcessIsRead(s: State, tick: nat, t: Side, mine: nat -> bool)
    requires Enabled(s, Read(tick)) && t.out == s.up
    requires s.pc.Waiting? ==> GetMsg(s.down[..MSG_SIZE]).hwnd != HWND_INVALID
    ensures Process(t, GetMsg(s.down[..MSG_SIZE]), tick, mine).out == ReadMsg(s, tick).up
  {
  }

  // ---- how often the client says that it is alive ---------------------------------------

  datatype Check = Check(woken: bool, tick: nat)

  function LiveAll(s: Side, checks: seq<Check>): Side {
    if checks == [] then s
    else
      var n := |checks| - 1;
      Live(LiveAll(s, checks[..n]), checks[n].woken, checks[n].tick)
  }

  // The clock does not go back.
  predicate Ordered(from: nat, checks: seq<Check>) {
    forall i | 0 <= i < |checks| :: from <= checks[i].tick && (i > 0 ==> checks[i - 1].tick <= checks[i].tick)
  }

  // Each beat is more than the interval after the one before it.
  predicate Spaced(from: nat, beats: seq<nat>) {
    && (beats != [] ==> beats[0] > from + LIVE_INTERVAL)
    && forall i | 0 < i < |beats| :: beats[i] > beats[i - 1] + LIVE_INTERVAL
  }

  function LiveRequests(beats: seq<nat>): (r: seq<Request>)
    ensures |r| == |beats|
  {
    seq(|beats|, i requires 0 <= i < |beats| => LiveRequest(beats[i]))
  }

  function Latest(from: nat, beats: seq<nat>): nat {
    if beats == [] then from else beats[|beats| - 1]
  }

  // The ticks at which requests go out.
  function Beats(from: nat, checks: seq<Check>): seq<nat> {
    if checks == [] then []
    else
      var c := checks[|checks| - 1];
      var before := Beats(from, checks[..|checks| - 1]);
      if c.woken || c.tick > Latest(from, before) + LIVE_INTERVAL then before + [c.tick] else before
  }

  lemma {:induction false} BeatsAreWritten(s: Side, checks: seq<Check>)
    ensures LiveAll(s, checks).out == s.out + PutRequests(LiveRequests(Beats(s.lastTicks, checks)))
    ensures LiveAll(s, checks).lastTicks == Latest(s.lastTicks, Beats(s.lastTicks, checks))
  {
    hide PutRequest, LiveRequest;
    if checks != [] {
      var c := checks[|checks| - 1];
      var before := Beats(s.lastTicks, checks[..|checks| - 1]);
      BeatsAreWritten(s, checks[..|checks| - 1]);
      assert LiveRequests(before + [c.tick]) == LiveRequests(before) + [LiveRequest(c.tick)];
      RequestsAppend(LiveRequests(before), LiveRequest(c.tick));
      hide PutRequests, LiveRequests;
    }
  }

  lemma {:induction false} BeatsAreSpaced(from: nat, checks: seq<Check>)
    requires forall i | 0 <= i < |checks| :: !checks[i].woken
    ensures Spaced(from, Beats(from, checks))
  {
    if checks != [] {
      var n := |checks| - 1;
      var init, c := checks[..n], checks[n];
      assert forall i | 0 <= i < n :: init[i] == checks[i];
      BeatsAreSpaced(from, init);
      if c.tick > Latest(from, Beats(from, init)) + LIVE_INTERVAL {
        SpacedAppend(from, Beats(from, init), c.tick);
      }
    }
  }

  lemma SpacedAppend(from: nat, beats: seq<nat>, tick: nat)
    requires Spaced(from, beats) && tick > Latest(from, beats) + LIVE_INTERVAL
    ensures Spaced(from, beats + [tick])
  {
    var more := beats + [tick];
    forall i | 0 < i < |more| ensures more[i] > more[i - 1] + LIVE_INTERVAL {
      assert more[i - 1] == beats[i - 1];
      assert i < |beats| ==> more[i] == beats[i];
    }
  }

  lemma {:induction false} BeatsAreFresh(from: nat, checks: seq<Check>)
    requires Ordered(from, checks) && checks != []
    ensures var latest := Latest(from, Beats(from, checks));
      latest <= checks[|checks| - 1].tick <= latest + LIVE_INTERVAL
  {
    var n := |checks| - 1;
    var init, c := checks[..n], checks[n];
    assert from <= c.tick;
    if n > 0 {
      assert init[n - 1] == checks[n - 1] && checks[n - 1].tick <= c.tick;
      BeatsAreFresh(from, init);
    } else {
      assert Beats(from, init) == [];
    }
  }

  // However often the client checks, what it writes is a series of whole IAMLIVE requests. Idle
  // checks write at most one in more than a hundred ticks; and after every check the latest
  // request is at most a hundred ticks old.
  lemma KeepsPace(s: Side, checks: seq<Check>)
    requires Ordered(s.lastTicks, checks)
    ensures var beats := Beats(s.lastTicks, checks);
      && LiveAll(s, checks).out == s.out + PutRequests(LiveRequests(beats))
      && LiveAll(s, checks).lastTicks == Latest(s.lastTicks, beats)
      && ((forall i | 0 <= i < |checks| :: !checks[i].woken) ==> Spaced(s.lastTicks, beats))
      && (checks != [] ==>
            Latest(s.lastTicks, beats) <= checks[|checks| - 1].tick <= Latest(s.lastTicks, beats) + LIVE_INTERVAL)
  {
    BeatsAreWritten(s, checks);
    if checks != [] { BeatsAreFresh(s.lastTicks, checks); }
    if forall i | 0 <= i < |checks| :: !checks[i].woken { BeatsAreSpaced(s.lastTicks, checks); }
    hide Beats, LiveAll, PutRequests, LiveRequests;
  }

  // The server's record of the client is the tick of the latest request.
  lemma BeatArrives(tick: nat, rest: bytes)
    requires tick < Power(INT)
    ensures var got := Served(REQID_IAMLIVE, PutInt(tick, INT));
      TakeRequest(PutRequest(LiveRequest(tick)) + rest) == Some((got, rest)) && GetInt(got.payload) == tick
  {
    LiveRequestFits(tick, (_, _) => None, 0);
    RequestRoundTrip(LiveRequest(tick), rest);
    IntRoundTrip(tick, INT);
    assert PutInt(tick, INT) + [] == PutInt(tick, INT);
  }

  function AsyncFrames(ms: seq<WireMsg>): (fs: seq<Frame>)
    ensures |fs| == |ms| && forall k | 0 <= k < |fs| :: fs[k] == Async(ms[k])
  {
    seq(|ms|, k requires 0 <= k < |ms| => Async(ms[k]))
  }

  predicate Ordinary(ms: seq<WireMsg>) {
    forall k | 0 <= k < |ms| :: MsgFits(ms[k]) && ms[k].hwnd != HWND_INVALID
  }

  // The stream from the n-th of the messages on: the messages, the reply, and what follows.
  function Ahead(ms: seq<WireMsg>, n: nat, body: bytes, rest: bytes): bytes
    requires n <= |ms|
  {
    PutFrames(AsyncFrames(ms[n..])) + (PutMsg(ReplyMark) + (body + rest))
  }

  lemma NextMsg(ms: seq<WireMsg>, n: nat, body: bytes, rest: bytes)
    requires n <= |ms| && Ordinary(ms)
    ensures var b := Ahead(ms, n, body, rest);
      && |b| >= MSG_SIZE
      && GetMsg(b[..MSG_SIZE]) == (if n < |ms| then ms[n] else ReplyMark)
      && b[MSG_SIZE..] == if n < |ms| then Ahead(ms, n + 1, body, rest) else body + rest
  {
    hide PutMsg, GetMsg;
    var b := Ahead(ms, n, body, rest);
    var m := if n < |ms| then ms[n] else ReplyMark;
    MsgRoundTrip(m);
    if n < |ms| {
      assert AsyncFrames(ms[n..])[1..] == AsyncFrames(ms[n + 1..]);
      assert b == PutMsg(m) + Ahead(ms, n + 1, body, rest);
    } else {
      assert b == PutMsg(m) + (body + rest);
    }
    assert b[..MSG_SIZE] == PutMsg(m);
  }

  lemma NoneInvalid(ms: seq<WireMsg>, n: nat)
    requires n <= |ms| && Ordinary(ms)
    ensures n < |ms| ==> ms[n].hwnd != HWND_INVALID
  {
  }

  // When its request has been served, a waiting client finds in the stream what the loop
  // below relies on: ordinary messages, the reply of the length it wants, and the rest.
  lemma WaitingSeesReply(s: State, fs: seq<Frame>, serve: Handlers) returns (ms: seq<WireMsg>, rest: bytes)
    requires Inv(s, fs, serve) && s.pc.Waiting? && s.pc.serial < |s.served|
    ensures |Expected(s.pc, s.sent, serve)| == 1
    ensures var body := Expected(s.pc, s.sent, serve)[0].body;
      Ordinary(ms) && |body| == s.sent[s.pc.serial].want && s.down == Ahead(ms, 0, body, rest)
  {
    assert Matched(serve, s.sent[s.pc.serial], s.pc.serial);
    ExpectedOne(s.pc, s.sent, serve);
    hide UpRight, ResultsRight, Expected;
    ms, rest := UpToReply(fs);
    assert ms[0..] == ms;
  }

  lemma {:induction false} UpToReply(fs: seq<Frame>) returns (ms: seq<WireMsg>, rest: bytes)
    requires GoodFrames(fs) && Replies(fs) != []
    ensures Ordinary(ms)
    ensures PutFrames(fs) == PutFrames(AsyncFrames(ms)) + (PutMsg(ReplyMark) + (Replies(fs)[0] + rest))
  {
    hide PutMsg, MsgFits;
    if fs[0].Reply? {
      ms, rest := [], PutFrames(fs[1..]);
    } else {
      var later;
      later, rest := UpToReply(fs[1..]);
      ms := [fs[0].msg] + later;
      assert AsyncFrames(ms)[1..] == AsyncFrames(later);
    }
  }

  class Client {
    var out: bytes          // written to the server
    var incoming: bytes     // what the server writes, from the read position on
    var done: seq<Action>
    var lastTicks: nat

    constructor (incoming: bytes)
      ensures out == [] && this.incoming == incoming && done == [] && lastTicks == 0
    {
      this.incoming := incoming;
      out, done, lastTicks := [], [], 0;
    }

    ghost function View(): Side
      reads this
    {
      Side(out, done, lastTicks)
    }

    method CheckLive(woken: bool, tick: nat)
      modifies this
      ensures View() == Live(old(View()), woken, tick) && incoming == old(incoming)
    {
      if woken || tick > lastTicks + LIVE_INTERVAL {
        lastTicks := tick;
        out := out + PutRequest(LiveRequest(tick));
      }
    }

    method ProcessSocketMessage(m: WireMsg, tick: nat, mine: nat -> bool)
      modifies this
      ensures View() == Process(old(View()), m, tick, mine) && incoming == old(incoming)
      ensures forall kind :: DoneTo(done, kind) == DoneTo(old(done), kind) + if IsOf(kind, m, mine) then [m] else []
    {
      forall kind
        ensures DoneTo(done + [ActionOf(m, mine)], kind) == DoneTo(done, kind) + if IsOf(kind, m, mine) then [m] else []
      {
        DoneAppend(done, ActionOf(m, mine), kind);
        KindDecides(m, mine, kind);
      }
      hide DoneTo, ActionOf, IsOf;
      done := done + [ActionOf(m, mine)];
      if m.message == MSG_WAKEUP_CLIENT {
        CheckLive(true, tick);
      }
    }

    method SockRead(n: nat) returns (b: bytes)
      requires n <= |incoming|
      modifies this
      ensures b == old(incoming)[..n] && incoming == old(incoming)[n..] && View() == old(View())
    {
      b := incoming[..n];
      incoming := incoming[n..];
    }

    // Handles every message before the reply, and reads the mark of the reply.
    method AwaitReply(clock: nat -> nat, mine: nat -> bool, ghost ms: seq<WireMsg>, ghost body: bytes, ghost rest: bytes)
      requires Ordinary(ms) && incoming == Ahead(ms, 0, body, rest)
      modifies this
      ensures View() == ProcessAll(old(View()), ms, clock, mine) && incoming == body + rest
    {
      hide Ahead, GetMsg, MsgFits, Ordinary, Process;
      ghost var before := View();
      var n := 0;
      while true
        invariant n <= |ms| && incoming == Ahead(ms, n, body, rest)
        invariant View() == ProcessAll(before, ms[..n], clock, mine)
        decreases |ms| - n
      {
        NextMsg(ms, n, body, rest);
        var b := SockRead(MSG_SIZE);
        var m := GetMsg(b);
        if m.hwnd == HWND_INVALID {
          NoneInvalid(ms, n);
          break;
        }
        assert ms[..n + 1][..n] == ms[..n];
        ProcessSocketMessage(m, clock(n), mine);
        n := n + 1;
      }
      assert ms[..n] == ms;
    }

    // Whatever messages come before the reply, each is handled, in order, and the result is
    // the reply's body; the read position ends up right behind it.
    method Request(r: Request, clock: nat -> nat, mine: nat -> bool,
                   ghost ms: seq<WireMsg>, ghost body: bytes, ghost rest: bytes)
      returns (result: bytes)
      requires r.want > 0 ==> Ordinary(ms) && |body| == r.want && incoming == Ahead(ms, 0, body, rest)
      modifies this
      ensures r.want == 0 ==> result == [] && incoming == old(incoming)
                              && View() == old(View()).(out := old(out) + PutRequest(r))
      ensures r.want > 0 ==> result == body && incoming == rest
                             && Sorted(old(done), done, ms, mine) && |done| == old(|done|) + |ms|
                             && done == old(done) + Actions(ms, mine)
                             && out == old(out) + PutRequest(r) + PutRequests(Lives(ms, clock))
    {
      hide Ahead, PutRequest, PutRequests, Lives, Actions, Ordinary, ProcessAll, Sorted;
      out := out + PutRequest(r);
      if r.want == 0 {
        return [];
      }
      ProcessAllIs(View(), ms, clock, mine);
      ProcessSorts(View(), ms, clock, mine);
      AwaitReply(clock, mine, ms, body, rest);
      result := SockRead(r.want);
    }
  }

  class Server {
    var incoming: bytes
    var out: bytes
    var handled: nat        // requests handled so far

    constructor (incoming: bytes)
      ensures this.incoming == incoming && out == [] && handled == 0
    {
      this.incoming := incoming;
      out, handled := [], 0;
    }

    method SockRead(n: nat) returns (b: bytes)
      requires n <= |incoming|
      modifies this
      ensures b == old(incoming)[..n] && incoming == old(incoming)[n..]
      ensures out == old(out) && handled == old(handled)
    {
      b := incoming[..n];
      incoming := incoming[n..];
    }

    method SendReply(body: bytes)
      modifies this
      ensures out == old(out) + PutAnswer(Some(body))
      ensures incoming == old(incoming) && handled == old(handled)
    {
      hide PutMsg;
      ghost var mark := PutMsg(ReplyMark);
      assert (out + mark) + body == out + (mark + body);
      out := out + PutMsg(ReplyMark);
      out := out + body;
    }

    // Reads one request and answers it as its handler says.
    method HandleRequest(serve: Handlers)
      requires TakeRequest(incoming).Some?
      modifies this
      ensures var (got, rest) := TakeRequest(old(incoming)).value;
        incoming == rest && handled == old(handled) + 1
        && out == old(out) + PutAnswer(Answer(serve, got, old(handled)))
        && out == old(out) + (if got.id == 14 || serve(got, old(handled)).None? then []
                              else PutMsg(ReplyMark) + serve(got, old(handled)).value)
    {
      hide GetInt;
      ghost var b := incoming;
      var idBytes := SockRead(INT);
      var lenBytes := SockRead(SIZE);
      var exBytes := SockRead(SIZE);
      assert idBytes == b[..INT] && lenBytes == b[INT..INT + SIZE] && exBytes == b[INT + SIZE..HEAD];
      assert incoming == b[HEAD..];
      var len := GetInt(lenBytes) + GetInt(exBytes);
      var payload := SockRead(len);
      assert payload == b[HEAD..HEAD + len] && incoming == b[HEAD + len..];
      var got := Served(GetInt(idBytes), payload);
      var answer := Answer(serve, got, handled);
      hide Answer, PutMsg;
      handled := handled + 1;
      if answer.Some? {
        SendReply(answer.value);
      }
    }
  }
}
