/**
 The conversation of one client with the server. The server answers some requests, and also
 sends messages of its own on the stream that carries the answers; a message for the invalid
 window announces an answer. While a client waits for one it handles the other messages, and
 may send IAMLIVE requests from there. One step is one request written, one message or result
 read, or one request handled.
 */
module Framing {
  import opened Common
  import opened Wire

  const HWND_INVALID := 0xFFFF_FFFF_FFFF_FFFF
  const MSG_WAKEUP_CLIENT := 0x014C
  const REQID_IAMLIVE := 14

  const ReplyMark := WireMsg(HWND_INVALID, 0, 0, 0, 0, 0)

  // What the handlers reply to the n-th request, if anything. An unknown id has no handler
  // and gets no reply; neither does IAMLIVE.
  type Handlers = (Served, nat) -> Option<bytes>

  function Answer(serve: Handlers, sent: Served, n: nat): Option<bytes> {
    if sent.id == REQID_IAMLIVE then None else serve(sent, n)
  }

  function PutAnswer(answer: Option<bytes>): bytes {
    if answer.Some? then PutMsg(ReplyMark) + answer.value else []
  }

  function LiveRequest(tick: nat): Request {
    Request(REQID_IAMLIVE, PutInt(tick, INT), [], 0)
  }

  datatype Pc = Idle | Waiting(serial: nat) | Reading(serial: nat)

  datatype Result = Result(serial: nat, body: bytes)

  // `up` and `down` are the bytes written and not yet read; the sequences are the history of
  // requests sent and served, messages posted and handled, and results read.
  datatype State = State(
    up: bytes, down: bytes, pc: Pc,
    sent: seq<Request>, served: seq<Served>,
    posted: seq<WireMsg>, handled: seq<WireMsg>,
    results: seq<Result>)

  datatype Event =
    | Submit(request: Request)
    | Read(tick: nat)
    | ReadResult
    | Serve
    | Post(msg: WireMsg)

  // The caller waits exactly for the reply that the handler sends.
  predicate Matched(serve: Handlers, r: Request, n: nat) {
    match Answer(serve, Received(r), n)
    case None => r.want == 0
    case Some(body) => r.want > 0 && |body| == r.want
  }

  predicate Enabled(s: State, e: Event) {
    match e
    case Submit(r) => s.pc == Idle && Fits(r)
    case Read(tick) => !s.pc.Reading? && |s.down| >= MSG_SIZE && tick < Power(INT)
    case ReadResult => s.pc.Reading? && s.pc.serial < |s.sent| && |s.down| >= s.sent[s.pc.serial].want
    case Serve => TakeRequest(s.up).Some?
    case Post(m) => MsgFits(m) && m.hwnd != HWND_INVALID
  }

  function WriteRequest(s: State, r: Request): State {
    s.(up := s.up + PutRequest(r), sent := s.sent + [r])
  }

  function ReadMsg(s: State, tick: nat): State
    requires Enabled(s, Read(tick))
  {
    var m := GetMsg(s.down[..MSG_SIZE]);
    var u := s.(down := s.down[MSG_SIZE..]);
    if s.pc.Waiting? && m.hwnd == HWND_INVALID then u.(pc := Reading(s.pc.serial))
    else
      var v := u.(handled := s.handled + [m]);
      if m.message == MSG_WAKEUP_CLIENT then WriteRequest(v, LiveRequest(tick)) else v
  }

  function ServeOne(s: State, serve: Handlers): State
    requires Enabled(s, Serve)
  {
    var (got, rest) := TakeRequest(s.up).value;
    s.(up := rest, served := s.served + [got], down := s.down + PutAnswer(Answer(serve, got, |s.served|)))
  }

  function Step(s: State, e: Event, serve: Handlers): State
    requires Enabled(s, e)
  {
    match e
    case Submit(r) => WriteRequest(s, r).(pc := if r.want > 0 then Waiting(|s.sent|) else Idle)
    case Read(tick) => ReadMsg(s, tick)
    case ReadResult =>
      var n := s.sent[s.pc.serial].want;
      s.(down := s.down[n..], pc := Idle, results := s.results + [Result(s.pc.serial, s.down[..n])])
    case Serve => ServeOne(s, serve)
    case Post(m) => s.(down := s.down + PutMsg(m), posted := s.posted + [m])
  }

  // ---- what the streams carry ----------------------------------------------------------

  datatype Frame = Async(msg: WireMsg) | Reply(body: bytes)

  function PutFrame(f: Frame): bytes {
    match f
    case Async(m) => PutMsg(m)
    case Reply(body) => PutMsg(ReplyMark) + body
  }

  function PutFrames(fs: seq<Frame>): bytes {
    if fs == [] then [] else PutFrame(fs[0]) + PutFrames(fs[1..])
  }

  function PutRequests(rs: seq<Request>): bytes {
    if rs == [] then [] else PutRequest(rs[0]) + PutRequests(rs[1..])
  }

  function Asyncs(fs: seq<Frame>): seq<WireMsg> {
    if fs == [] then []
    else (if fs[0].Async? then [fs[0].msg] else []) + Asyncs(fs[1..])
  }

  function Replies(fs: seq<Frame>): seq<bytes> {
    if fs == [] then []
    else (if fs[0].Reply? then [fs[0].body] else []) + Replies(fs[1..])
  }

  lemma {:induction false} FramesAppend(fs: seq<Frame>, f: Frame)
    ensures PutFrames(fs + [f]) == PutFrames(fs) + PutFrame(f)
  {
    hide PutFrame;
    if fs != [] {
      FramesAppend(fs[1..], f);
      assert (fs + [f])[1..] == fs[1..] + [f];
    } else {
      assert (fs + [f])[1..] == [];
    }
  }

  lemma {:induction false} KindsAppend(fs: seq<Frame>, f: Frame)
    ensures Asyncs(fs + [f]) == Asyncs(fs) + if f.Async? then [f.msg] else []
    ensures Replies(fs + [f]) == Replies(fs) + if f.Reply? then [f.body] else []
  {
    if fs != [] {
      KindsAppend(fs[1..], f);
      assert (fs + [f])[1..] == fs[1..] + [f];
    } else {
      assert (fs + [f])[1..] == [];
    }
  }

  lemma {:induction false} RequestsAppend(rs: seq<Request>, r: Request)
    ensures PutRequests(rs + [r]) == PutRequests(rs) + PutRequest(r)
  {
    hide PutRequest;
    if rs != [] {
      RequestsAppend(rs[1..], r);
      assert (rs + [r])[1..] == rs[1..] + [r];
    } else {
      assert (rs + [r])[1..] == [];
    }
  }

  // The results that the requests call for, in order.
  function Answers(serve: Handlers, sent: seq<Request>): seq<Result> {
    if sent == [] then []
    else
      var n := |sent| - 1;
      var answer := Answer(serve, Received(sent[n]), n);
      Answers(serve, sent[..n]) + if answer.Some? then [Result(n, answer.value)] else []
  }

  // ---- the invariant -------------------------------------------------------------------

  predicate UpRight(up: bytes, sent: seq<Request>, served: seq<Served>, serve: Handlers) {
    && |served| <= |sent|
    && up == PutRequests(sent[|served|..])
    && (forall k | 0 <= k < |sent| :: Fits(sent[k]) && Matched(serve, sent[k], k))
    && forall k | 0 <= k < |served| :: served[k] == Received(sent[k])
  }

  predicate GoodFrame(f: Frame) {
    f.Async? ==> MsgFits(f.msg) && f.msg.hwnd != HWND_INVALID
  }

  predicate GoodFrames(fs: seq<Frame>) {
    forall k | 0 <= k < |fs| :: GoodFrame(fs[k])
  }

  // Having read the mark of a reply, the client is inside the first frame.
  predicate DownRight(down: bytes, reading: bool, fs: seq<Frame>) {
    && GoodFrames(fs)
    && (reading ==> fs != [] && fs[0].Reply?)
    && down == (if reading then fs[0].body + PutFrames(fs[1..]) else PutFrames(fs))
  }

  // What the client waits for.
  function Expected(pc: Pc, sent: seq<Request>, serve: Handlers): seq<Result> {
    if pc.Idle? || pc.serial >= |sent| then []
    else
      var answer := Answer(serve, Received(sent[pc.serial]), pc.serial);
      if answer.Some? then [Result(pc.serial, answer.value)] else []
  }

  function Bodies(rs: seq<Result>): (b: seq<bytes>)
    ensures |b| == |rs| && forall k | 0 <= k < |b| :: b[k] == rs[k].body
  {
    seq(|rs|, k requires 0 <= k < |rs| => rs[k].body)
  }

  // The request that the client waits for is on its way or its answer is, and nothing else
  // that anybody waits for.
  predicate TurnRight(pc: Pc, sent: seq<Request>, served: nat, fs: seq<Frame>, serve: Handlers) {
    && (!pc.Idle? ==> pc.serial < |sent| && sent[pc.serial].want > 0)
    && (pc.Reading? ==> pc.serial < served)
    && (forall k | served <= k < |sent| && sent[k].want > 0 :: pc == Waiting(k))
    && Replies(fs) == if pc.Idle? || pc.serial >= served then [] else Bodies(Expected(pc, sent, serve))
  }

  predicate ResultsRight(pc: Pc, sent: seq<Request>, results: seq<Result>, serve: Handlers) {
    Answers(serve, sent) == results + Expected(pc, sent, serve)
  }

  // `fs` are the frames that the down stream carries.
  ghost predicate Inv(s: State, fs: seq<Frame>, serve: Handlers) {
    && UpRight(s.up, s.sent, s.served, serve)
    && DownRight(s.down, s.pc.Reading?, fs)
    && s.handled + Asyncs(fs) == s.posted
    && TurnRight(s.pc, s.sent, |s.served|, fs, serve)
    && ResultsRight(s.pc, s.sent, s.results, serve)
  }

  // ---- steps ---------------------------------------------------------------------------

  lemma WriteKeepsUp(up: bytes, sent: seq<Request>, served: seq<Served>, r: Request, serve: Handlers)
    requires UpRight(up, sent, served, serve) && Fits(r) && Matched(serve, r, |sent|)
    ensures UpRight(up + PutRequest(r), sent + [r], served, serve)
  {
    hide PutRequest, PutRequests, Fits, Matched, Received;
    RequestsAppend(sent[|served|..], r);
    assert (sent + [r])[|served|..] == sent[|served|..] + [r];
  }

  lemma AnswersAppend(serve: Handlers, sent: seq<Request>, r: Request)
    ensures Answers(serve, sent + [r]) ==
      Answers(serve, sent) +
      (var answer := Answer(serve, Received(r), |sent|);
       if answer.Some? then [Result(|sent|, answer.value)] else [])
  {
    assert (sent + [r])[..|sent|] == sent;
  }

  lemma ExpectedStays(pc: Pc, sent: seq<Request>, r: Request, serve: Handlers)
    requires !pc.Idle? ==> pc.serial < |sent|
    ensures Expected(pc, sent + [r], serve) == Expected(pc, sent, serve)
  {
    hide Answer, Received;
  }

  // A request that nobody waits for changes nothing but the up stream.
  lemma PlainWrite(pc: Pc, sent: seq<Request>, results: seq<Result>, r: Request, serve: Handlers, served: nat, fs: seq<Frame>)
    requires TurnRight(pc, sent, served, fs, serve) && ResultsRight(pc, sent, results, serve)
    requires r.want == 0 && Matched(serve, r, |sent|)
    ensures TurnRight(pc, sent + [r], served, fs, serve) && ResultsRight(pc, sent + [r], results, serve)
  {
    hide Answers, Expected, Replies, Answer, Received, Bodies;
    AnswersAppend(serve, sent, r);
    ExpectedStays(pc, sent, r, serve);
  }

  lemma WantedWrite(sent: seq<Request>, results: seq<Result>, r: Request, serve: Handlers, served: nat, fs: seq<Frame>)
    requires TurnRight(Idle, sent, served, fs, serve) && ResultsRight(Idle, sent, results, serve)
    requires r.want > 0 && Matched(serve, r, |sent|) && served <= |sent|
    ensures TurnRight(Waiting(|sent|), sent + [r], served, fs, serve)
    ensures ResultsRight(Waiting(|sent|), sent + [r], results, serve)
  {
    hide Answers, Replies, Received, Bodies;
    AnswersAppend(serve, sent, r);
  }

  lemma SubmitKeepsInv(s: State, r: Request, fs: seq<Frame>, serve: Handlers)
    requires Inv(s, fs, serve) && Enabled(s, Submit(r)) && Matched(serve, r, |s.sent|)
    ensures Inv(Step(s, Submit(r), serve), fs, serve)
  {
    WriteKeepsUp(s.up, s.sent, s.served, r, serve);
    assert |s.served| <= |s.sent|;
    hide UpRight, DownRight, TurnRight, ResultsRight, PutRequest, Matched;
    if r.want > 0 {
      WantedWrite(s.sent, s.results, r, serve, |s.served|, fs);
    } else {
      PlainWrite(s.pc, s.sent, s.results, r, serve, |s.served|, fs);
    }
  }

  lemma DownAppend(down: bytes, reading: bool, fs: seq<Frame>, f: Frame)
    requires DownRight(down, reading, fs) && GoodFrame(f)
    ensures DownRight(down + PutFrame(f), reading, fs + [f])
  {
    hide PutFrame, PutFrames, GoodFrame;
    FramesAppend(fs, f);
    if reading {
      FramesAppend(fs[1..], f);
      assert (fs + [f])[1..] == fs[1..] + [f];
    }
  }

  lemma PostKeepsInv(s: State, m: WireMsg, fs: seq<Frame>, serve: Handlers)
    requires Inv(s, fs, serve) && Enabled(s, Post(m))
    ensures Inv(Step(s, Post(m), serve), fs + [Async(m)], serve)
  {
    hide PutMsg, UpRight, DownRight, ResultsRight, TurnRight, Asyncs, MsgFits, PutFrames, Replies;
    KindsAppend(fs, Async(m));
    AsyncTurn(s.pc, s.sent, |s.served|, fs, m, serve);
    DownAppend(s.down, s.pc.Reading?, fs, Async(m));
  }

  lemma AsyncTurn(pc: Pc, sent: seq<Request>, served: nat, fs: seq<Frame>, m: WireMsg, serve: Handlers)
    requires TurnRight(pc, sent, served, fs, serve)
    ensures TurnRight(pc, sent, served, fs + [Async(m)], serve)
  {
    KindsAppend(fs, Async(m));
  }

  lemma ServeTakesNext(s: State, serve: Handlers)
    requires UpRight(s.up, s.sent, s.served, serve) && Enabled(s, Serve)
    ensures |s.served| < |s.sent|
    ensures TakeRequest(s.up) ==
      Some((Received(s.sent[|s.served|]), PutRequests(s.sent[|s.served| + 1..])))
  {
    hide PutRequest;
    var rs := s.sent[|s.served|..];
    if rs != [] {
      RequestRoundTrip(rs[0], PutRequests(rs[1..]));
    }
  }

  lemma ServeKeepsUp(s: State, serve: Handlers)
    requires UpRight(s.up, s.sent, s.served, serve) && |s.served| < |s.sent|
    ensures Matched(serve, s.sent[|s.served|], |s.served|)
    ensures UpRight(PutRequests(s.sent[|s.served| + 1..]), s.sent, s.served + [Received(s.sent[|s.served|])], serve)
  {
  }

  lemma ServeTurn(pc: Pc, sent: seq<Request>, served: nat, fs: seq<Frame>, serve: Handlers)
    requires served < |sent| && Matched(serve, sent[served], served) && TurnRight(pc, sent, served, fs, serve)
    ensures TurnRight(pc, sent, served + 1, fs + ReplyFrames(Answer(serve, Received(sent[served]), served)), serve)
  {
    var answer := Answer(serve, Received(sent[served]), served);
    if answer.Some? {
      KindsAppend(fs, Reply(answer.value));
    } else {
      assert fs + [] == fs;
    }
  }

  function ReplyFrames(answer: Option<bytes>): seq<Frame> {
    if answer.Some? then [Reply(answer.value)] else []
  }

  lemma AnswerDown(down: bytes, reading: bool, fs: seq<Frame>, answer: Option<bytes>)
    requires DownRight(down, reading, fs)
    ensures DownRight(down + PutAnswer(answer), reading, fs + ReplyFrames(answer))
    ensures Asyncs(fs + ReplyFrames(answer)) == Asyncs(fs)
  {
    hide DownRight, PutMsg;
    if answer.Some? {
      KindsAppend(fs, Reply(answer.value));
      DownAppend(down, reading, fs, Reply(answer.value));
    } else {
      assert fs + [] == fs;
      assert down + [] == down;
    }
  }

  lemma ServeKeepsInv(s: State, fs: seq<Frame>, serve: Handlers) returns (after: seq<Frame>)
    requires Inv(s, fs, serve) && Enabled(s, Serve)
    ensures Inv(Step(s, Serve, serve), after, serve)
    ensures |after| == |fs| || (|after| == |fs| + 1 && s.pc == Waiting(|s.served|))
  {
    hide Step, ServeOne, Enabled, TakeRequest, UpRight, TurnRight, ResultsRight, DownRight, Asyncs, PutRequests,
         PutAnswer, Answer, ReplyFrames, Received, Matched;
    ServeTakesNext(s, serve);
    var n := |s.served|;
    var got, rest := Received(s.sent[n]), PutRequests(s.sent[n + 1..]);
    var answer := Answer(serve, got, n);
    after := fs + ReplyFrames(answer);
    ServeKeepsUp(s, serve);
    ServeTurn(s.pc, s.sent, n, fs, serve);
    AnswerDown(s.down, s.pc.Reading?, fs, answer);
    OnlyWaitedFor(s, fs, serve);
    ServeIs(s, got, rest, serve);
  }

  lemma ServeIs(s: State, got: Served, rest: bytes, serve: Handlers)
    requires Enabled(s, Serve) && TakeRequest(s.up) == Some((got, rest))
    ensures Step(s, Serve, serve)
         == s.(up := rest, served := s.served + [got], down := s.down + PutAnswer(Answer(serve, got, |s.served|)))
  {
    hide TakeRequest, PutAnswer, Answer;
  }

  // Only the request that the client waits for is answered.
  lemma OnlyWaitedFor(s: State, fs: seq<Frame>, serve: Handlers)
    requires Inv(s, fs, serve) && |s.served| < |s.sent|
    ensures var answer := Answer(serve, Received(s.sent[|s.served|]), |s.served|);
      && (answer.Some? ==> s.pc == Waiting(|s.served|))
      && |ReplyFrames(answer)| == if answer.Some? then 1 else 0
  {
    assert Matched(serve, s.sent[|s.served|], |s.served|);
    hide DownRight, ResultsRight, Asyncs, PutRequests, Received;
  }

  lemma LiveRequestFits(tick: nat, serve: Handlers, n: nat)
    requires tick < Power(INT)
    ensures Fits(LiveRequest(tick)) && Matched(serve, LiveRequest(tick), n) && LiveRequest(tick).want == 0
  {
  }

  // The message read next is the first frame's.
  lemma FirstMsg(down: bytes, fs: seq<Frame>)
    requires DownRight(down, false, fs) && |down| >= MSG_SIZE
    ensures fs != []
    ensures GetMsg(down[..MSG_SIZE]) == if fs[0].Async? then fs[0].msg else ReplyMark
    ensures fs[0].Async? ==> fs[0].msg.hwnd != HWND_INVALID && DownRight(down[MSG_SIZE..], false, fs[1..])
    ensures fs[0].Reply? ==> DownRight(down[MSG_SIZE..], true, fs)
  {
    MarkFits();
    NonEmptyDown(fs);
    assert GoodFrame(fs[0]);
    hide PutMsg, GetMsg, MsgFits;
    var m := if fs[0].Async? then fs[0].msg else ReplyMark;
    MsgRoundTrip(m);
    FirstFrameBytes(down, fs);
    hide PutFrames;
  }

  lemma MarkFits()
    ensures MsgFits(ReplyMark)
  {
  }

  lemma NonEmptyDown(fs: seq<Frame>)
    ensures fs == [] ==> PutFrames(fs) == []
  {
  }

  // The bytes of the first frame's message, and those behind it.
  lemma FirstFrameBytes(down: bytes, fs: seq<Frame>)
    requires fs != [] && down == PutFrames(fs)
    ensures |down| >= MSG_SIZE
    ensures down[..MSG_SIZE] == PutMsg(if fs[0].Async? then fs[0].msg else ReplyMark)
    ensures down[MSG_SIZE..] == if fs[0].Async? then PutFrames(fs[1..]) else fs[0].body + PutFrames(fs[1..])
  {
    hide PutMsg;
  }

  lemma ReadKeepsInv(s: State, tick: nat, fs: seq<Frame>, serve: Handlers) returns (after: seq<Frame>)
    requires Inv(s, fs, serve) && Enabled(s, Read(tick))
    ensures Inv(Step(s, Read(tick), serve), after, serve)
    ensures if Step(s, Read(tick), serve).pc == s.pc then |after| == |fs| - 1 else after == fs
  {
    FirstMsg(s.down, fs);
    if fs[0].Async? {
      after := fs[1..];
      ReadAsyncKeepsInv(s, tick, fs, serve);
      ReadAsyncKeepsPc(s, tick, fs, serve);
    } else {
      after := fs;
      ReadMarkKeepsInv(s, tick, fs, serve);
    }
    hide *;
  }

  lemma ReadAsyncKeepsPc(s: State, tick: nat, fs: seq<Frame>, serve: Handlers)
    requires Enabled(s, Read(tick)) && GetMsg(s.down[..MSG_SIZE]).hwnd != HWND_INVALID
    ensures Step(s, Read(tick), serve).pc == s.pc
  {
    hide GetMsg, LiveRequest, PutRequest;
  }

  lemma ReadMarkKeepsInv(s: State, tick: nat, fs: seq<Frame>, serve: Handlers)
    requires Inv(s, fs, serve) && Enabled(s, Read(tick)) && fs != [] && fs[0].Reply?
    ensures Inv(Step(s, Read(tick), serve), fs, serve) && Step(s, Read(tick), serve).pc != s.pc
  {
    FirstMsg(s.down, fs);
    StartReading(s, fs, serve);
    ReadMarkIs(s, tick, fs, serve);
    hide Step, UpRight, DownRight, TurnRight, ResultsRight, Asyncs;
  }

  lemma ReadMarkIs(s: State, tick: nat, fs: seq<Frame>, serve: Handlers)
    requires Enabled(s, Read(tick)) && s.pc.Waiting? && GetMsg(s.down[..MSG_SIZE]) == ReplyMark
    ensures Step(s, Read(tick), serve) == s.(down := s.down[MSG_SIZE..], pc := Reading(s.pc.serial))
  {
    hide GetMsg;
  }

  lemma ReadAsyncKeepsInv(s: State, tick: nat, fs: seq<Frame>, serve: Handlers)
    requires Inv(s, fs, serve) && Enabled(s, Read(tick)) && fs != [] && fs[0].Async?
    ensures Inv(Step(s, Read(tick), serve), fs[1..], serve)
  {
    FirstMsg(s.down, fs);
    var m := fs[0].msg;
    var u := s.(down := s.down[MSG_SIZE..], handled := s.handled + [m]);
    HandledKeepsInv(s, u, fs, serve);
    hide GetMsg, Inv, WriteRequest;
    if m.message == MSG_WAKEUP_CLIENT {
      LiveKeepsInv(u, tick, fs[1..], serve);
    }
  }

  lemma HandledKeepsInv(s: State, u: State, fs: seq<Frame>, serve: Handlers)
    requires Inv(s, fs, serve) && fs != [] && fs[0].Async? && !s.pc.Reading? && |s.down| >= MSG_SIZE
    requires u == s.(down := s.down[MSG_SIZE..], handled := s.handled + [fs[0].msg])
    ensures Inv(u, fs[1..], serve)
  {
    FirstMsg(s.down, fs);
    HandleNext(s.handled, fs);
    hide GetMsg, UpRight, DownRight, ResultsRight, TurnRight, Asyncs;
    SkipAsync(s.pc, s.sent, |s.served|, fs, serve);
  }

  lemma HandleNext(handled: seq<WireMsg>, fs: seq<Frame>)
    requires fs != [] && fs[0].Async?
    ensures handled + [fs[0].msg] + Asyncs(fs[1..]) == handled + Asyncs(fs)
  {
  }

  lemma LiveKeepsInv(s: State, tick: nat, fs: seq<Frame>, serve: Handlers)
    requires Inv(s, fs, serve) && tick < Power(INT)
    ensures Inv(WriteRequest(s, LiveRequest(tick)), fs, serve)
  {
    var r := LiveRequest(tick);
    LiveRequestFits(tick, serve, |s.sent|);
    WriteKeepsUp(s.up, s.sent, s.served, r, serve);
    hide PutRequest, UpRight, DownRight, ResultsRight, TurnRight, Matched, Fits, LiveRequest;
    PlainWrite(s.pc, s.sent, s.results, r, serve, |s.served|, fs);
  }

  lemma SkipAsync(pc: Pc, sent: seq<Request>, served: nat, fs: seq<Frame>, serve: Handlers)
    requires TurnRight(pc, sent, served, fs, serve) && fs != [] && fs[0].Async?
    ensures TurnRight(pc, sent, served, fs[1..], serve)
  {
  }

  lemma StartReading(s: State, fs: seq<Frame>, serve: Handlers)
    requires TurnRight(s.pc, s.sent, |s.served|, fs, serve) && fs != [] && fs[0].Reply? && !s.pc.Reading?
    requires ResultsRight(s.pc, s.sent, s.results, serve)
    ensures s.pc.Waiting?
    ensures TurnRight(Reading(s.pc.serial), s.sent, |s.served|, fs, serve)
    ensures ResultsRight(Reading(s.pc.serial), s.sent, s.results, serve)
  {
  }

  lemma ReadResultKeepsInv(s: State, fs: seq<Frame>, serve: Handlers) returns (after: seq<Frame>)
    requires Inv(s, fs, serve) && Enabled(s, ReadResult)
    ensures Inv(Step(s, ReadResult, serve), after, serve)
    ensures |after| == |fs| - 1
  {
    hide PutFrames, ResultsRight, Asyncs, UpRight, TurnRight;
    after := fs[1..];
    var k := s.pc.serial;
    OneMatched(s.up, s.sent, s.served, serve, k);
    SkipReply(fs);
    ReadTurn(s.pc, s.sent, |s.served|, fs, serve);
    var body := fs[0].body;
    assert s.down[..s.sent[k].want] == body;
    assert s.down[s.sent[k].want..] == PutFrames(after);
    EndReading(s.pc, s.sent, s.results, body, serve);
  }

  lemma OneMatched(up: bytes, sent: seq<Request>, served: seq<Served>, serve: Handlers, k: nat)
    requires UpRight(up, sent, served, serve) && k < |sent|
    ensures Matched(serve, sent[k], k)
  {
  }

  lemma SkipReply(fs: seq<Frame>)
    requires fs != [] && fs[0].Reply?
    ensures Asyncs(fs[1..]) == Asyncs(fs)
  {
  }

  lemma ReadTurn(pc: Pc, sent: seq<Request>, served: nat, fs: seq<Frame>, serve: Handlers)
    requires TurnRight(pc, sent, served, fs, serve) && pc.Reading? && fs != [] && fs[0].Reply?
    requires pc.serial < |sent| && Matched(serve, sent[pc.serial], pc.serial)
    ensures TurnRight(Idle, sent, served, fs[1..], serve)
    ensures Answer(serve, Received(sent[pc.serial]), pc.serial) == Some(fs[0].body)
  {
  }

  lemma EndReading(pc: Pc, sent: seq<Request>, results: seq<Result>, body: bytes, serve: Handlers)
    requires ResultsRight(pc, sent, results, serve) && pc.Reading? && pc.serial < |sent|
    requires Answer(serve, Received(sent[pc.serial]), pc.serial) == Some(body)
    ensures ResultsRight(Idle, sent, results + [Result(pc.serial, body)], serve)
  {
  }

  lemma StepKeepsInv(s: State, e: Event, fs: seq<Frame>, serve: Handlers) returns (after: seq<Frame>)
    requires Inv(s, fs, serve) && Enabled(s, e)
    requires e.Submit? ==> Matched(serve, e.request, |s.sent|)
    ensures Inv(Step(s, e, serve), after, serve)
  {
    hide Inv, Matched;
    match e
    case Submit(r) =>
      after := fs;
      SubmitKeepsInv(s, r, fs, serve);
    case Read(tick) => after := ReadKeepsInv(s, tick, fs, serve);
    case ReadResult => after := ReadResultKeepsInv(s, fs, serve);
    case Serve => after := ServeKeepsInv(s, fs, serve);
    case Post(m) =>
      after := fs + [Async(m)];
      PostKeepsInv(s, m, fs, serve);
  }

  // ---- theorems ------------------------------------------------------------------------

  // A run in which callers wait exactly for what the handlers reply.
  ghost predicate IsRun(states: seq<State>, events: seq<Event>, serve: Handlers) {
    && |states| == |events| + 1
    && states[0] == State([], [], Idle, [], [], [], [], [])
    && forall i | 0 <= i < |events| ::
         && Enabled(states[i], events[i]) && states[i + 1] == Step(states[i], events[i], serve)
         && (events[i].Submit? ==> Matched(serve, events[i].request, |states[i].sent|))
  }

  lemma {:induction false} FramesOf(states: seq<State>, events: seq<Event>, serve: Handlers, n: nat) returns (fs: seq<Frame>)
    requires IsRun(states, events, serve) && n <= |events|
    ensures Inv(states[n], fs, serve)
  {
    if n == 0 {
      fs := [];
    } else {
      fs := FramesOf(states, events, serve, n - 1);
      hide Inv, Step, Enabled, Matched;
      fs := StepKeepsInv(states[n - 1], events[n - 1], fs, serve);
    }
  }

  ghost predicate Framed(s: State, serve: Handlers) {
    exists fs: seq<Frame> :: Inv(s, fs, serve)
  }

  // In every interleaving both streams stay on frame boundaries.
  lemma AlwaysFramed(states: seq<State>, events: seq<Event>, serve: Handlers, n: nat)
    requires IsRun(states, events, serve) && n <= |events|
    ensures Framed(states[n], serve)
  {
    hide Inv;
    var fs := FramesOf(states, events, serve, n);
  }

  predicate RightResult(serve: Handlers, sent: seq<Request>, r: Result) {
    r.serial < |sent| && Answer(serve, Received(sent[r.serial]), r.serial) == Some(r.body)
  }

  lemma {:induction false} AnswersRight(serve: Handlers, sent: seq<Request>, i: nat)
    requires i < |Answers(serve, sent)|
    ensures RightResult(serve, sent, Answers(serve, sent)[i])
    ensures i > 0 ==> Answers(serve, sent)[i - 1].serial < Answers(serve, sent)[i].serial
  {
    var n := |sent| - 1;
    var before := Answers(serve, sent[..n]);
    if i < |before| {
      AnswersRight(serve, sent[..n], i);
    } else if i > 0 {
      AnswersRight(serve, sent[..n], i - 1);
    }
  }

  lemma {:induction false} AnswersComplete(serve: Handlers, sent: seq<Request>, k: nat) returns (i: nat)
    requires k < |sent| && Answer(serve, Received(sent[k]), k).Some?
    ensures i < |Answers(serve, sent)| && Answers(serve, sent)[i].serial == k
  {
    var n := |sent| - 1;
    if k == n {
      i := |Answers(serve, sent[..n])|;
    } else {
      i := AnswersComplete(serve, sent[..n], k);
    }
  }

  // The results called for are exactly the replies to the requests with a reply, in order.
  lemma AnswersExactly(serve: Handlers, sent: seq<Request>)
    ensures forall i | 0 <= i < |Answers(serve, sent)| ::
      && RightResult(serve, sent, Answers(serve, sent)[i])
      && (i > 0 ==> Answers(serve, sent)[i - 1].serial < Answers(serve, sent)[i].serial)
    ensures forall k | 0 <= k < |sent| && Answer(serve, Received(sent[k]), k).Some? ::
      exists i :: 0 <= i < |Answers(serve, sent)| && Answers(serve, sent)[i].serial == k
  {
    forall i | 0 <= i < |Answers(serve, sent)|
      ensures RightResult(serve, sent, Answers(serve, sent)[i])
      ensures i > 0 ==> Answers(serve, sent)[i - 1].serial < Answers(serve, sent)[i].serial
    {
      AnswersRight(serve, sent, i);
    }
    forall k | 0 <= k < |sent| && Answer(serve, Received(sent[k]), k).Some?
      ensures exists i :: 0 <= i < |Answers(serve, sent)| && Answers(serve, sent)[i].serial == k
    {
      var i := AnswersComplete(serve, sent, k);
    }
  }

  // What each side has got: the server every request as it was sent, the client the posted
  // messages in order and its own requests' replies in order; and nothing is lost on the way.
  lemma BothGetTheirs(s: State, fs: seq<Frame>, serve: Handlers)
    requires Inv(s, fs, serve)
    ensures |s.served| <= |s.sent| && forall k | 0 <= k < |s.served| :: s.served[k] == Received(s.sent[k])
    ensures |s.handled| <= |s.posted| && s.handled == s.posted[..|s.handled|]
    ensures s.results == Answers(serve, s.sent)[..|Answers(serve, s.sent)| - if s.pc.Idle? then 0 else 1]
    ensures s.up == [] ==> |s.served| == |s.sent|
    ensures s.down == [] && !s.pc.Reading? ==> s.handled == s.posted
  {
  }

  lemma ExpectedOne(pc: Pc, sent: seq<Request>, serve: Handlers)
    requires !pc.Idle? && pc.serial < |sent| && sent[pc.serial].want > 0 && Matched(serve, sent[pc.serial], pc.serial)
    ensures |Expected(pc, sent, serve)| == 1
    ensures |Expected(pc, sent, serve)[0].body| == sent[pc.serial].want
  {
  }

  function PostedBy(events: seq<Event>, n: nat): seq<WireMsg>
    requires n <= |events|
  {
    if n == 0 then [] else PostedBy(events, n - 1) + if events[n - 1].Post? then [events[n - 1].msg] else []
  }

  // The history is that of the run: the messages posted are those of its posting steps, and
  // every request submitted is among those sent, the client's IAMLIVE requests in between.
  lemma {:induction false} HistoryIsRun(states: seq<State>, events: seq<Event>, serve: Handlers, n: nat)
    requires IsRun(states, events, serve) && n <= |events|
    ensures states[n].posted == PostedBy(events, n)
    ensures n > 0 && events[n - 1].Submit? ==> states[n].sent == states[n - 1].sent + [events[n - 1].request]
    ensures n > 0 ==> |states[n - 1].sent| <= |states[n].sent| && states[n].sent[..|states[n - 1].sent|] == states[n - 1].sent
  {
    if n > 0 {
      HistoryIsRun(states, events, serve, n - 1);
      StepIsRecorded(states[n - 1], events[n - 1], serve);
      hide Step, Enabled, Matched;
    }
  }

  lemma StepIsRecorded(s: State, e: Event, serve: Handlers)
    requires Enabled(s, e)
    ensures var t := Step(s, e, serve);
      && t.posted == s.posted + (if e.Post? then [e.msg] else [])
      && (e.Submit? ==> t.sent == s.sent + [e.request])
      && |s.sent| <= |t.sent| && t.sent[..|s.sent|] == s.sent
  {
    hide GetMsg, TakeRequest, PutRequest, LiveRequest;
  }

  // A waiting client is never stuck: a request is there to be served, or a message or result
  // is there to be read.
  lemma NeverStuck(s: State, fs: seq<Frame>, serve: Handlers, tick: nat)
    requires Inv(s, fs, serve) && !s.pc.Idle? && tick < Power(INT)
    ensures Enabled(s, Serve) || Enabled(s, Read(tick)) || Enabled(s, ReadResult)
  {
    var k := s.pc.serial;
    assert Matched(serve, s.sent[k], k);
    ExpectedOne(s.pc, s.sent, serve);
    if k >= |s.served| {
      CanServe(s, serve);
    } else {
      assert fs != [];
      if s.pc.Reading? {
        assert Replies(fs)[0] == fs[0].body;
      }
    }
  }

  lemma CanServe(s: State, serve: Handlers)
    requires UpRight(s.up, s.sent, s.served, serve) && |s.served| < |s.sent|
    ensures Enabled(s, Serve)
  {
    var rs := s.sent[|s.served|..];
    RequestRoundTrip(rs[0], PutRequests(rs[1..]));
  }

  // What is left to do until the client's wait is over.
  function Work(s: State, fs: seq<Frame>): int {
    2 * |fs| + |s.sent| - |s.served|
    + if s.pc.Waiting? then (if s.pc.serial >= |s.served| then 3 else 1) else 0
  }

  // Every step but a new request or message brings the end of the wait nearer.
  lemma WorkShrinks(s: State, e: Event, fs: seq<Frame>, serve: Handlers) returns (after: seq<Frame>)
    requires Inv(s, fs, serve) && Enabled(s, e) && !e.Submit? && !e.Post?
    ensures Inv(Step(s, e, serve), after, serve)
    ensures 0 <= Work(Step(s, e, serve), after) < Work(s, fs)
  {
    hide UpRight, DownRight, TurnRight, ResultsRight, GetMsg, TakeRequest, Asyncs, LiveRequest, Answer;
    match e
    case Read(tick) =>
      after := ReadKeepsInv(s, tick, fs, serve);
      Counted(s, serve);
    case ReadResult =>
      after := ReadResultKeepsInv(s, fs, serve);
      Counted(s, serve);
    case Serve =>
      after := ServeKeepsInv(s, fs, serve);
      ServeTakesNext(s, serve);
  }

  lemma Counted(s: State, serve: Handlers)
    requires UpRight(s.up, s.sent, s.served, serve)
    ensures |s.served| <= |s.sent|
  {
  }

  // ---- what a mismatch does ------------------------------------------------------------

  // After its request was served, the client reads what it waits for and nothing is left over.
  predicate Completes(s: State, serve: Handlers) {
    if s.pc.Idle? then s.down == []
    else
      && Enabled(s, Read(0))
      && var u := Step(s, Read(0), serve);
         Enabled(u, ReadResult) && Step(u, ReadResult, serve).down == []
  }

  // An exchange on empty streams completes if and only if the caller waits exactly for the
  // reply that the handler sends.
  lemma CompletesExactly(s: State, r: Request, serve: Handlers)
    requires s.up == [] && s.down == [] && s.pc == Idle && |s.served| == |s.sent| && Fits(r)
    ensures Enabled(Step(s, Submit(r), serve), Serve)
    ensures Completes(Step(Step(s, Submit(r), serve), Serve, serve), serve) <==> Matched(serve, r, |s.sent|)
  {
    RequestRoundTrip(r, []);
    var t := Step(s, Submit(r), serve);
    hide TakeRequest, PutRequest, PutAnswer, Answer, Completes;
    assert t.up == PutRequest(r) + [];
    var u := Step(t, Serve, serve);
    var answer := Answer(serve, Received(r), |s.sent|);
    assert u.down == PutAnswer(answer);
    AnswerReadExactly(u, r.want, answer, serve);
  }

  lemma AnswerReadExactly(u: State, want: nat, answer: Option<bytes>, serve: Handlers)
    requires u.down == PutAnswer(answer) && u.sent != [] && u.sent[|u.sent| - 1].want == want
    requires u.pc == if want > 0 then Waiting(|u.sent| - 1) else Idle
    ensures Completes(u, serve) <==> if answer.None? then want == 0 else want > 0 && |answer.value| == want
  {
    hide PutMsg, GetMsg;
    if answer.Some? {
      MsgRoundTrip(ReplyMark);
      assert u.down[..MSG_SIZE] == PutMsg(ReplyMark);
      assert u.down[MSG_SIZE..] == answer.value;
    }
  }
}
