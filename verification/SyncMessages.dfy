/**
 Synchronous messages. A sender links a node that lives on its own stack into the receiver's
 queue and sleeps on a semaphore in that node; whoever answers stores the return value and
 posts the semaphore, after which the sender may return and the node is gone.

 `SyncState` is the protocol as a state machine over sender numbers; `SyncQueue` is the
 pointer structure, whose methods are its atomic steps.
 */
module SyncMessages {
  import opened Messages
  import opened SyncWalk

  // ---- the protocol --------------------------------------------------------------------

  // `Canceled` is ERR_MSG_CANCELED, the value a node also starts with.
  datatype Answer = Canceled | Result(value: int)

  // Linked in the queue; taken out by a removing peek and not yet dispatched; semaphore
  // posted `posts` times; sender gone; dispatched to a window without a procedure, which
  // answers nothing.
  datatype Phase =
    | Queued
    | Held
    | Posted(answer: Answer, posts: nat)
    | Returned(answer: Answer, posts: nat)
    | Ignored

  datatype SyncState = SyncState(chain: seq<nat>, phases: seq<Phase>)

  datatype SyncOp =
    | Send
    | PeekRemove
    | Dispatch(id: nat, answer: Answer)
    | Ignore(id: nat)
    | CancelAll
    | Wake(id: nat)

  const INITIAL := SyncState([], [])

  // A dispatch may hit whatever node the message carries.
  predicate Enabled(s: SyncState, op: SyncOp) {
    match op
    case Send => true
    case PeekRemove => s.chain != [] && s.chain[0] < |s.phases|
    case Dispatch(id, _) => id < |s.phases|
    case Ignore(id) => id < |s.phases|
    case CancelAll => true
    case Wake(id) => id < |s.phases| && s.phases[id].Posted?
  }

  // Storing a return value and posting. Doing so to a node that is gone counts as a post.
  function Answered(p: Phase, answer: Answer): Phase {
    match p
    case Posted(_, n) => Posted(answer, n + 1)
    case Returned(a, n) => Returned(a, n + 1)
    case _ => Posted(answer, 1)
  }

  function CancelIn(phases: seq<Phase>, ids: seq<nat>): (r: seq<Phase>)
    ensures |r| == |phases|
    ensures forall i | 0 <= i < |r| :: r[i] == if i in ids then Answered(phases[i], Canceled) else phases[i]
  {
    seq(|phases|, i requires 0 <= i < |phases| => if i in ids then Answered(phases[i], Canceled) else phases[i])
  }

  function AfterSend(s: SyncState): SyncState {
    SyncState(s.chain + [|s.phases|], s.phases + [Queued])
  }

  function AfterPeek(s: SyncState): SyncState
    requires Enabled(s, PeekRemove)
  {
    var p := s.phases[s.chain[0]];
    SyncState(s.chain[1..], s.phases[s.chain[0] := if p == Queued then Held else p])
  }

  function AfterDispatch(s: SyncState, id: nat, answer: Answer): SyncState
    requires id < |s.phases|
  {
    s.(phases := s.phases[id := Answered(s.phases[id], answer)])
  }

  // The early returns of DispatchMessage.
  function AfterIgnore(s: SyncState, id: nat): SyncState
    requires id < |s.phases|
  {
    if s.phases[id].Held? then s.(phases := s.phases[id := Ignored]) else s
  }

  function AfterCancelAll(s: SyncState): SyncState {
    SyncState([], CancelIn(s.phases, s.chain))
  }

  function AfterWake(s: SyncState, id: nat): SyncState
    requires Enabled(s, Wake(id))
  {
    s.(phases := s.phases[id := Returned(s.phases[id].answer, s.phases[id].posts)])
  }

  function Step(s: SyncState, op: SyncOp): SyncState
    requires Enabled(s, op)
  {
    match op
    case Send => AfterSend(s)
    case PeekRemove => AfterPeek(s)
    case Dispatch(id, answer) => AfterDispatch(s, id, answer)
    case Ignore(id) => AfterIgnore(s, id)
    case CancelAll => AfterCancelAll(s)
    case Wake(id) => AfterWake(s, id)
  }

  predicate Released(s: SyncState, id: nat) {
    id < |s.phases| && (s.phases[id].Posted? || s.phases[id].Returned?)
  }

  // A node is linked exactly while its sender is in phase Queued, and linked once; a released
  // sender was posted once.
  ghost predicate Inv(s: SyncState) {
    && (forall i, j | 0 <= i < j < |s.chain| :: s.chain[i] != s.chain[j])
    && (forall i | 0 <= i < |s.chain| :: s.chain[i] < |s.phases|)
    && (forall id: nat | id < |s.phases| :: s.phases[id].Queued? <==> id in s.chain)
    && (forall id: nat | id < |s.phases| && Released(s, id) :: s.phases[id].posts == 1)
  }

  lemma LinkedIsQueued(s: SyncState)
    requires Inv(s)
    ensures forall i | 0 <= i < |s.chain| :: s.chain[i] < |s.phases| && s.phases[s.chain[i]].Queued?
  {
  }

  lemma SendKeepsInv(s: SyncState)
    requires Inv(s)
    ensures Inv(AfterSend(s))
  {
  }

  lemma PeekKeepsInv(s: SyncState)
    requires Inv(s) && s.chain != []
    ensures s.chain[0] < |s.phases| && s.phases[s.chain[0]].Queued? && Inv(AfterPeek(s))
  {
  }

  lemma CancelKeepsInv(s: SyncState)
    requires Inv(s)
    ensures Inv(AfterCancelAll(s))
  {
  }

  // The dispatched node was taken out of the queue and has not been answered.
  predicate Proper(s: SyncState, op: SyncOp) {
    op.Dispatch? && op.id < |s.phases| ==> s.phases[op.id].Held? || s.phases[op.id].Ignored?
  }

  lemma StepKeepsInv(s: SyncState, op: SyncOp)
    requires Inv(s) && Enabled(s, op) && Proper(s, op)
    ensures Inv(Step(s, op))
  {
    match op
    case Send => SendKeepsInv(s);
    case PeekRemove => PeekKeepsInv(s);
    case CancelAll => CancelKeepsInv(s);
    case _ =>
  }

  // Nobody is posted twice, and nobody is released while linked.
  ghost predicate Sound(s: SyncState) {
    forall id: nat | Released(s, id) :: s.phases[id].posts <= 1 && id !in s.chain
  }

  lemma InvIsSound(s: SyncState)
    requires Inv(s)
    ensures Sound(s)
  {
  }

  lemma ImproperIsUnsound(s: SyncState, op: SyncOp)
    requires Inv(s) && Enabled(s, op) && !Proper(s, op)
    ensures !Sound(Step(s, op))
  {
    assert Released(Step(s, op), op.id);
  }

  // The number of times this step posts the semaphore of `id`.
  function PostsBy(s: SyncState, op: SyncOp, id: nat): nat {
    match op
    case Dispatch(d, _) => if d == id then 1 else 0
    case CancelAll => if id in s.chain then 1 else 0
    case _ => 0
  }

  ghost predicate IsRun(states: seq<SyncState>, ops: seq<SyncOp>) {
    && |states| == |ops| + 1
    && states[0] == INITIAL
    && forall i | 0 <= i < |ops| :: Enabled(states[i], ops[i]) && states[i + 1] == Step(states[i], ops[i])
  }

  ghost predicate AllProper(states: seq<SyncState>, ops: seq<SyncOp>)
    requires |states| == |ops| + 1
  {
    forall i | 0 <= i < |ops| :: Proper(states[i], ops[i])
  }

  function Posts(states: seq<SyncState>, ops: seq<SyncOp>, id: nat, n: nat): nat
    requires n <= |ops| < |states|
  {
    if n == 0 then 0 else Posts(states, ops, id, n - 1) + PostsBy(states[n - 1], ops[n - 1], id)
  }

  // In every run with proper dispatches a sender's semaphore is posted at most once, and it
  // has been posted exactly when the sender is released.
  lemma {:induction false} PostedAtMostOnce(states: seq<SyncState>, ops: seq<SyncOp>, id: nat, n: nat)
    requires IsRun(states, ops) && AllProper(states, ops) && n <= |ops|
    ensures Inv(states[n])
    ensures Posts(states, ops, id, n) == if Released(states[n], id) then 1 else 0
  {
    if n > 0 {
      hide Inv, Step, Enabled, PostsBy, Released, Proper;
      PostedAtMostOnce(states, ops, id, n - 1);
      StepKeepsInv(states[n - 1], ops[n - 1]);
      StepPosts(states[n - 1], ops[n - 1], id);
    }
  }

  // A proper step releases a sender exactly when it posts it, and never one released before.
  lemma StepPosts(s: SyncState, op: SyncOp, id: nat)
    requires Inv(s) && Enabled(s, op) && Proper(s, op)
    ensures (if Released(Step(s, op), id) then 1 else 0) == (if Released(s, id) then 1 else 0) + PostsBy(s, op, id)
  {
  }

  // A run posts nobody twice and releases nobody while linked, if and only if every dispatch
  // is of a node that was taken out and not yet answered.
  lemma {:induction false} SoundExactly(states: seq<SyncState>, ops: seq<SyncOp>)
    requires IsRun(states, ops)
    ensures (forall n | 0 <= n < |states| :: Sound(states[n])) <==> AllProper(states, ops)
  {
    hide Inv, Sound, Step, Enabled, Proper;
    if AllProper(states, ops) {
      forall n | 0 <= n < |states| ensures Sound(states[n]) {
        PostedAtMostOnce(states, ops, 0, n);
        InvIsSound(states[n]);
      }
    }
    if forall n | 0 <= n < |states| :: Sound(states[n]) {
      forall i | 0 <= i < |ops| ensures Proper(states[i], ops[i]) {
        SoundSoFar(states, ops, i);
        assert Sound(states[i + 1]);
        if !Proper(states[i], ops[i]) { ImproperIsUnsound(states[i], ops[i]); }
      }
    }
  }

  lemma {:induction false} SoundSoFar(states: seq<SyncState>, ops: seq<SyncOp>, n: nat)
    requires IsRun(states, ops) && n <= |ops| && forall i | 0 <= i <= n :: Sound(states[i])
    ensures Inv(states[n])
  {
    if n > 0 {
      hide Inv, Sound, Step, Enabled, Proper;
      SoundSoFar(states, ops, n - 1);
      assert Sound(states[n]);
      if !Proper(states[n - 1], ops[n - 1]) { ImproperIsUnsound(states[n - 1], ops[n - 1]); }
      StepKeepsInv(states[n - 1], ops[n - 1]);
    } else {
      EmptyInv();
    }
  }

  lemma EmptyInv()
    ensures Inv(INITIAL)
  {
  }

  // Once posted, the node is unreachable and the return value never changes again; it is the
  // value that the sender takes home.
  lemma {:induction false} AnswerIsFinal(states: seq<SyncState>, ops: seq<SyncOp>, id: nat, i: nat, j: nat)
    requires IsRun(states, ops) && AllProper(states, ops) && i <= j <= |ops| && Released(states[i], id)
    ensures Released(states[j], id) && states[j].phases[id].answer == states[i].phases[id].answer
    ensures id !in states[j].chain
  {
    PostedAtMostOnce(states, ops, id, j);
    if i < j {
      hide Step, Inv, Enabled, Proper;
      AnswerIsFinal(states, ops, id, i, j - 1);
      PostedAtMostOnce(states, ops, id, j - 1);
      AnswerStays(states[j - 1], ops[j - 1], id);
      InvIsSound(states[j]);
    } else {
      InvIsSound(states[j]);
    }
  }

  lemma AnswerStays(s: SyncState, op: SyncOp, id: nat)
    requires Inv(s) && Enabled(s, op) && Proper(s, op) && Released(s, id)
    ensures Released(Step(s, op), id) && Step(s, op).phases[id].answer == s.phases[id].answer
  {
  }

  // Whoever is answered by a dispatch takes home the value of that very dispatch.
  lemma DispatchedAnswer(states: seq<SyncState>, ops: seq<SyncOp>, i: nat, j: nat)
    requires IsRun(states, ops) && AllProper(states, ops) && i < j <= |ops| && ops[i].Dispatch?
    ensures Released(states[j], ops[i].id) && states[j].phases[ops[i].id].answer == ops[i].answer
  {
    assert Proper(states[i], ops[i]) && Enabled(states[i], ops[i]);
    assert states[i + 1] == Step(states[i], ops[i]);
    AnswerIsFinal(states, ops, ops[i].id, i + 1, j);
  }

  // Whoever was linked when the queue was emptied takes home the cancelled value.
  lemma CanceledAnswer(states: seq<SyncState>, ops: seq<SyncOp>, id: nat, i: nat, j: nat)
    requires IsRun(states, ops) && AllProper(states, ops) && i < j <= |ops|
    requires ops[i] == CancelAll && id in states[i].chain
    ensures Released(states[j], id) && states[j].phases[id].answer == Canceled
  {
    PostedAtMostOnce(states, ops, id, i);
    assert states[i + 1] == Step(states[i], ops[i]);
    AnswerIsFinal(states, ops, id, i + 1, j);
  }

  // A sender wakes up at most once; from then on it is gone.
  lemma {:induction false} ReturnsOnce(states: seq<SyncState>, ops: seq<SyncOp>, id: nat, i: nat, j: nat)
    requires IsRun(states, ops) && AllProper(states, ops) && i < j <= |ops| && ops[i] == Wake(id)
    ensures id < |states[j].phases| && states[j].phases[id].Returned? && !Enabled(states[j], Wake(id))
  {
    assert Enabled(states[j - 1], ops[j - 1]) && states[j] == Step(states[j - 1], ops[j - 1]);
    assert Proper(states[j - 1], ops[j - 1]);
    PostedAtMostOnce(states, ops, id, j - 1);
    if i < j - 1 { ReturnsOnce(states, ops, id, i, j - 1); }
  }

  // There is no third way to be answered.
  lemma {:induction false} AnswerComesFrom(states: seq<SyncState>, ops: seq<SyncOp>, id: nat, n: nat) returns (i: nat)
    requires IsRun(states, ops) && AllProper(states, ops) && n <= |ops| && Released(states[n], id)
    ensures i < n
    ensures ops[i] == Dispatch(id, states[n].phases[id].answer)
         || (ops[i] == CancelAll && id in states[i].chain && states[n].phases[id].answer == Canceled)
  {
    assert n > 0;
    if Released(states[n - 1], id) {
      PostedAtMostOnce(states, ops, id, n - 1);
      AnswerStays(states[n - 1], ops[n - 1], id);
      i := AnswerComesFrom(states, ops, id, n - 1);
    } else {
      i := n - 1;
      PostedAtMostOnce(states, ops, id, i);
      ReleasedNow(states[i], ops[i], id);
    }
  }

  lemma ReleasedNow(s: SyncState, op: SyncOp, id: nat)
    requires Inv(s) && Enabled(s, op) && Proper(s, op) && !Released(s, id) && Released(Step(s, op), id)
    ensures op == Dispatch(id, Step(s, op).phases[id].answer)
         || (op == CancelAll && id in s.chain && Step(s, op).phases[id].answer == Canceled)
  {
  }

  // Nobody is forgotten: when the list is empty and the owner holds nothing, a sender has been
  // released, by exactly one post, if and only if its message was not ignored.
  lemma ReleasedExactly(states: seq<SyncState>, ops: seq<SyncOp>, id: nat, n: nat)
    requires IsRun(states, ops) && AllProper(states, ops) && n <= |ops| && id < |states[n].phases|
    requires states[n].chain == [] && !states[n].phases[id].Held?
    ensures Released(states[n], id) && Posts(states, ops, id, n) == 1 <==> !states[n].phases[id].Ignored?
  {
    PostedAtMostOnce(states, ops, id, n);
  }

  // A message is ignored only by its own dispatch to a window without a procedure; so where
  // every window has one, everybody is released.
  lemma {:induction false} IgnoredByDispatch(states: seq<SyncState>, ops: seq<SyncOp>, id: nat, n: nat) returns (i: nat)
    requires IsRun(states, ops) && n <= |ops| && id < |states[n].phases| && states[n].phases[id].Ignored?
    ensures i < n && ops[i] == Ignore(id) && id < |states[i].phases| && states[i].phases[id].Held?
  {
    var s, op := states[n - 1], ops[n - 1];
    if op == Ignore(id) && s.phases[id].Held? {
      i := n - 1;
    } else {
      i := IgnoredByDispatch(states, ops, id, n - 1);
    }
  }

  // ---- the pointer structure -----------------------------------------------------------

  class SyncMsg {
    var msg: Msg
    var retval: Answer
    var semValue: nat
    var pNext: SyncMsg?
    ghost const id: nat
    ghost var alive: bool

    constructor (msg: Msg, ghost id: nat)
      ensures this.msg == msg && this.id == id && retval == Canceled && semValue == 0 && pNext == null && alive
    {
      this.msg, this.id := msg, id;
      retval, semValue, pNext, alive := Canceled, 0, null, true;
    }

    ghost predicate Matches(p: Phase)
      reads `alive, `semValue, `retval
    {
      match p
      case Queued => alive && semValue == 0 && retval == Canceled
      case Held => alive && semValue == 0 && retval == Canceled
      case Ignored => alive && semValue == 0 && retval == Canceled
      case Posted(answer, posts) => alive && semValue == posts && retval == answer
      case Returned(_, _) => !alive
    }
  }

  // The linked nodes and their messages.
  class SyncList {
    var pFirst: SyncMsg?
    var pLast: SyncMsg?
    ghost var linked: seq<SyncMsg>
    ghost var msgs: seq<Msg>

    // The nodes reachable from the head.
    ghost predicate Reaches()
      reads this, linked`pNext
    {
      && (forall i, j | 0 <= i < j < |linked| :: linked[i] != linked[j])
      && (forall i | 0 <= i < |linked| - 1 :: linked[i].pNext == linked[i + 1])
      && if linked == [] then pFirst == null
         else pFirst == linked[0] && linked[|linked| - 1].pNext == null
    }

    // Whenever the head is non-null the tail is the last reachable node. When the head is
    // null the tail may dangle.
    ghost predicate Valid()
      reads this, linked`pNext, linked`msg
    {
      && Reaches()
      && (linked != [] ==> pLast == linked[|linked| - 1])
      && |msgs| == |linked|
      && forall i | 0 <= i < |linked| :: linked[i].msg == msgs[i]
    }

    // From node `k` on, the nodes of `all` still have their original successors.
    ghost predicate Ahead(all: seq<SyncMsg>, k: nat)
      reads all`pNext
    {
      forall i | k <= i < |all| :: all[i].pNext == if i + 1 < |all| then all[i + 1] else null
    }

    constructor ()
      ensures Valid() && linked == []
    {
      pFirst, pLast := null, null;
      linked, msgs := [], [];
    }

    method PushBack(node: SyncMsg)
      requires Valid() && node.pNext == null && node !in linked
      requires forall i | 0 <= i < |linked| :: linked[i].alive
      modifies this, linked`pNext
      ensures Valid() && linked == old(linked) + [node] && msgs == old(msgs) + [node.msg]
    {
      if pFirst == null {
        pFirst, pLast := node, node;
      } else {
        assert pLast.alive;
        pLast.pNext := node;
        pLast := node;
      }
      linked, msgs := linked + [node], msgs + [node.msg];
    }

    method PopFront() returns (node: SyncMsg)
      requires Valid() && pFirst != null && pFirst.alive
      modifies `pFirst, `linked, `msgs
      ensures Valid() && old(linked) == [node] + linked && old(msgs) == [node.msg] + msgs
      ensures node !in linked && pLast == old(pLast)
    {
      node := pFirst;
      pFirst := node.pNext;
      linked, msgs := linked[1..], msgs[1..];
    }
  }

  // Unlinking `node` behind its predecessor, which may itself have been unlinked before.
  method Bypass(list: SyncList, prev: SyncMsg, node: SyncMsg, ghost p: nat, ghost reachable: bool)
    requires list.Reaches() && p < |list.linked| && node == list.linked[p]
    requires if reachable then p > 0 && prev == list.linked[p - 1] else prev !in list.linked
    modifies prev`pNext, list`linked
    ensures list.Reaches()
    ensures list.linked == if reachable then old(list.linked)[..p] + old(list.linked)[p + 1..]
                           else old(list.linked)
    ensures prev.pNext == old(node.pNext)
  {
    prev.pNext := node.pNext;
    if reachable {
      list.linked := list.linked[..p] + list.linked[p + 1..];
    }
  }

  class SyncQueue {
    const list: SyncList
    ghost var senders: seq<SyncMsg>
    ghost var state: SyncState

    // Linked nodes are those of the senders in the chain, and every node looks as its
    // sender's phase says.
    ghost predicate Booked(linked: seq<SyncMsg>)
      reads this, senders`alive, senders`semValue, senders`retval
    {
      && |senders| == |state.phases|
      && (forall i | 0 <= i < |senders| :: senders[i].id == i && senders[i].Matches(state.phases[i]))
      && |linked| == |state.chain|
      && (forall i | 0 <= i < |linked| :: state.chain[i] < |senders| && senders[state.chain[i]] == linked[i])
    }

    ghost predicate Valid()
      reads this, senders, list, list.linked
    {
      list.Valid() && Booked(list.linked) && Inv(state)
    }

    constructor ()
      ensures Valid() && fresh(list) && state == INITIAL && senders == [] && list.msgs == []
    {
      list := new SyncList();
      senders, state := [], INITIAL;
    }

    // The queueing part of SendSyncMessage.
    method Send(m: Msg) returns (node: SyncMsg)
      requires Valid()
      modifies this, list, senders
      ensures Valid() && state == AfterSend(old(state)) && list.msgs == old(list.msgs) + [m]
      ensures fresh(node) && node.msg == m && senders == old(senders) + [node]
    {
      hide Inv, SyncList.Valid;
      SendKeepsInv(state);
      LinkedIsQueued(state);
      node := new SyncMsg(m, |senders|);
      list.PushBack(node);
      senders, state := senders + [node], AfterSend(state);
    }

    // The removing peek, also the first half of SendSyncMessage's drain of its own queue.
    method PeekRemove() returns (node: SyncMsg)
      requires Valid() && list.pFirst != null
      modifies this, list
      ensures old(state).chain != [] && Enabled(old(state), SyncOp.PeekRemove)
      ensures Valid() && state == AfterPeek(old(state)) && senders == old(senders)
      ensures node in senders && node.id == old(state).chain[0] && node !in list.linked
      ensures node.alive && state.phases[node.id].Held?
      ensures old(list.linked) == [node] + list.linked && list.pLast == old(list.pLast)
      ensures old(list.msgs) == [node.msg] + list.msgs
    {
      hide Inv;
      PeekKeepsInv(state);
      LinkedIsQueued(state);
      node := list.PopFront();
      state := AfterPeek(state);
    }

    // The answering end of DispatchMessage, for whatever node the message carries. If the
    // node is still linked or was answered before, the structure is not valid afterwards.
    method Dispatch(node: SyncMsg, answer: Answer)
      requires list.Valid() && Booked(list.linked) && node in senders && node.alive
      modifies this`state, node`retval, node`semValue
      ensures list.Valid() && Booked(list.linked)
      ensures state == AfterDispatch(old(state), node.id, answer)
      ensures node.retval == answer && node.semValue == old(node.semValue) + 1
      ensures old(Valid()) && Proper(old(state), SyncOp.Dispatch(node.id, answer)) ==> Valid()
    {
      ghost var s := state;
      hide Inv, SyncList.Valid;
      node.retval := answer;
      node.semValue := node.semValue + 1;
      state := AfterDispatch(state, node.id, answer);
      if Inv(s) && Proper(s, SyncOp.Dispatch(node.id, answer)) {
        StepKeepsInv(s, SyncOp.Dispatch(node.id, answer));
      }
    }

    // The sender wakes up, reads its return value and leaves; its stack node dies.
    method Wake(node: SyncMsg) returns (answer: Answer)
      requires Valid() && node in senders && state.phases[node.id].Posted?
      modifies this`state, node`semValue, node`alive
      ensures Valid() && state == AfterWake(old(state), node.id) && senders == old(senders)
      ensures answer == old(state).phases[node.id].answer == old(node.retval) && !node.alive
    {
      WakeKeepsInv(state, node.id);
      hide Inv, SyncList.Valid;
      node.semValue := node.semValue - 1;
      answer := node.retval;
      node.alive := false;
      state := AfterWake(state, node.id);
    }

    // One round of the loop in EmptyMessageQueue: the head is unlinked before its sender is
    // released.
    method CancelFirst()
      requires Valid() && list.pFirst != null
      modifies this, list, list.pFirst`msg, list.pFirst`retval, list.pFirst`semValue
      ensures old(state).chain != [] && old(state).chain[0] < |old(state).phases|
      ensures Valid() && state == CancelHead(old(state)) && senders == old(senders)
      ensures list.linked == old(list.linked)[1..] && list.msgs == old(list.msgs)[1..]
      ensures list.pLast == old(list.pLast)
    {
      hide Inv, SyncQueue.Booked;
      var node := PeekRemove();
      node.msg := node.msg.(hwnd := HWND_INVALID);
      Dispatch(node, Canceled);
    }

    // The walk of the sync branch stands at node `k` of `all`.
    ghost predicate Walking(all: seq<SyncMsg>, texts: seq<Msg>, ms: seq<bool>, k: nat)
      reads list, list.linked, all
    {
      && k <= |ms| == |all| == |texts|
      && (forall i, j | 0 <= i < j < |all| :: all[i] != all[j])
      && list.Ahead(all, k)
      && (forall i | k <= i < |all| :: all[i].msg == texts[i])
      && list.Reaches()
      && list.linked == Left(all, ms, k)
    }

    // As long as only the front has been touched, `count` senders have been cancelled.
    ghost predicate Exact(s: SyncState, texts: seq<Msg>, count: nat)
      reads this, senders, list, list.linked
      requires Inv(s)
    {
      && count <= |s.chain| && count <= |texts|
      && Valid() && state == CancelHeads(s, count) && list.msgs == texts[count..]
    }

    lemma StartWalking(ms: seq<bool>)
      requires Valid() && |ms| == |list.msgs|
      ensures Inv(state) && |list.linked| == |ms| == |state.chain|
      ensures Walking(list.linked, list.msgs, ms, 0) && Exact(state, list.msgs, 0)
      ensures list.pFirst == if list.linked != [] then list.linked[0] else null
      ensures forall i | 0 <= i < |list.linked| :: list.linked[i] in senders
    {
      hide Inv;
      assert Left(list.linked, ms, 0) == list.linked;
      StartExact();
    }

    lemma StartExact()
      requires Valid()
      ensures Exact(state, list.msgs, 0)
    {
      hide SyncQueue.Booked, SyncList.Valid, Inv;
      LinkedInChain();
    }

    // At the end of the walk.
    lemma StopWalking(all: seq<SyncMsg>, texts: seq<Msg>, ms: seq<bool>)
      requires Walking(all, texts, ms, |ms|)
      ensures list.Reaches() && list.linked == Pick(all, Survivors(ms, |ms|))
    {
    }

    lemma LinkedInChain()
      requires Valid()
      ensures |list.linked| == |state.chain| == |list.msgs|
    {
    }

    lemma UnfoldExact(s: SyncState, texts: seq<Msg>, count: nat)
      requires Inv(s)
      ensures Exact(s, texts, count) ==>
        && count <= |s.chain| && count <= |texts|
        && Valid() && state == CancelHeads(s, count) && list.msgs == texts[count..]
    {
    }

    // Passing a node that does not match.
    lemma PassOver(all: seq<SyncMsg>, texts: seq<Msg>, ms: seq<bool>, k: nat)
      requires Walking(all, texts, ms, k) && k < |ms| && !ms[k]
      ensures Walking(all, texts, ms, k + 1)
    {
      LeftOver(all, ms, k);
      hide Left, SyncList.Reaches;
    }

    lemma NextNode(all: seq<SyncMsg>, texts: seq<Msg>, ms: seq<bool>, k: nat)
      requires Walking(all, texts, ms, k) && k < |ms|
      ensures all[k].msg == texts[k] && (AtHead(ms, k) ==> list.pFirst == all[k])
      ensures all[k].pNext == if k + 1 < |all| then all[k + 1] else null
    {
    }

    method VisitHead(ghost all: seq<SyncMsg>, ghost texts: seq<Msg>, ghost ms: seq<bool>, ghost k: nat,
                     ghost s: SyncState)
      requires Walking(all, texts, ms, k) && k < |ms| && AtHead(ms, k) && ms[k]
      requires Inv(s) && k < |s.chain| && Exact(s, texts, k)
      modifies this, list, list.pFirst`msg, list.pFirst`retval, list.pFirst`semValue
      ensures Walking(all, texts, ms, k + 1) && Exact(s, texts, k + 1)
      ensures list.pFirst == if k + 1 < |all| then all[k + 1] else null
      ensures senders == old(senders) && list.pLast == old(list.pLast)
    {
      hide Inv, CancelHeads, CancelHead, Left, AtHead, SyncQueue.Booked;
      LeftAtHead(all, ms, k);
      CancelHeadsStep(s, k);
      CancelFirst();
    }

    method VisitBehind(prev: SyncMsg, node: SyncMsg,
                       ghost all: seq<SyncMsg>, ghost texts: seq<Msg>, ghost ms: seq<bool>, ghost k: nat)
      requires Walking(all, texts, ms, k) && 0 < k < |ms| && !AtHead(ms, k) && ms[k]
      requires prev == all[k - 1] && node == all[k]
      modifies prev`pNext, node`msg, node`retval, node`semValue, list`linked
      ensures Walking(all, texts, ms, k + 1)
      ensures node.pNext == if k + 1 < |all| then all[k + 1] else null
    {
      hide Survivors, Removed, AtHead, Left, Inv, SyncList.Valid, SyncList.Reaches, SyncQueue.Booked;
      if Removed(ms, k - 1) { LeftStay(all, ms, k); } else { LeftUnlink(all, ms, k); }
      node.msg := node.msg.(hwnd := HWND_INVALID);
      node.retval := Canceled;
      Bypass(list, prev, node, |Survivors(ms, k)|, !Removed(ms, k - 1));
      node.semValue := node.semValue + 1;
    }

    // The sync branch of __mg_throw_away_messages. For any list it leaves exactly the
    // surviving nodes reachable; the whole structure is valid again when the matching nodes
    // came first. `trace` records the accesses to the nodes.
    method ThrowAway(ws: Windows, target: Hwnd) returns (count: nat, ghost trace: seq<Access>)
      requires Valid()
      modifies this, list, senders
      ensures senders == old(senders) && list.pLast == old(list.pLast)
      ensures var ms := Matching(ws, target, old(list.msgs));
        && |ms| == |old(list.linked)|
        && trace == Trace(ms, |ms|)
        && list.Reaches() && list.linked == Pick(old(list.linked), Survivors(ms, |ms|))
        && count == Marked(ms, |ms|)
        && (MatchesFirst(ms) ==>
              && Valid() && count <= |old(state).chain| && state == CancelHeads(old(state), count)
              && list.msgs == old(list.msgs)[count..]
              && forall i | 0 <= i < |ms| :: ms[i] <==> i < count)
    {
      hide Inv, CancelHeads, BelongsTo, Trace, Marked, Survivors, AtHead, MatchesFirst, Walking, Exact, Valid;
      ghost var all, texts, s := list.linked, list.msgs, state;
      ghost var ms, k := Matching(ws, target, texts), 0;
      WalkStarts(ms);
      StartWalking(ms);
      var prev: SyncMsg?, node := null, list.pFirst;
      count, trace := 0, [];
      while node != null
        invariant Walking(all, texts, ms, k) && k <= |all| == |ms| == |s.chain|
        invariant node == if k < |all| then all[k] else null
        invariant prev == if AtHead(ms, k) then null else all[k - 1]
        invariant trace == Trace(ms, k) && count == Marked(ms, k)
        invariant AtHead(ms, k) ==> count == k
        invariant AtHead(ms, k) || MatchesFirst(ms) ==> Exact(s, texts, count)
        invariant senders == old(senders) && list.pLast == old(list.pLast)
        decreases |all| - k
      {
        VisitStep(ms, k);
        MarkedStep(ms, k);
        NextNode(all, texts, ms, k);
        if BelongsTo(ws, node.msg.hwnd, target) {
          count := count + 1;
          if prev == null {
            VisitHead(all, texts, ms, k, s);
            node := list.pFirst;
            trace := trace + [Touch(k), Release(k)];
          } else {
            VisitBehind(prev, node, all, texts, ms, k);
            prev := node;
            node := node.pNext;
            trace := trace + [Touch(k), Touch(k - 1), Release(k), Touch(k)];
          }
        } else {
          PassOver(all, texts, ms, k);
          prev, node := node, node.pNext;
          trace := trace + [Touch(k)];
        }
        k := k + 1;
      }
      StopWalking(all, texts, ms);
      UnfoldExact(s, texts, count);
      if MatchesFirst(ms) {
        FrontIsMarked(ms, |ms|);
        LinkedInChain();
      }
    }

    method CancelAll()
      requires Valid()
      modifies this, list, senders
      ensures Valid() && state == AfterCancelAll(old(state)) && senders == old(senders)
      ensures list.msgs == []
    {
      hide Inv;
      ghost var s := state;
      while list.pFirst != null
        invariant Valid() && senders == old(senders)
        invariant AfterCancelAll(state) == AfterCancelAll(s)
        decreases |state.chain|
      {
        CancelHeadFirst(state);
        CancelFirst();
      }
      assert CancelIn(state.phases, []) == state.phases;
    }
  }

  // Which of the linked messages belong to the target.
  function Matching(ws: Windows, target: Hwnd, msgs: seq<Msg>): (ms: seq<bool>)
    ensures |ms| == |msgs|
    ensures forall i | 0 <= i < |ms| :: ms[i] == BelongsTo(ws, msgs[i].hwnd, target)
  {
    seq(|msgs|, i requires 0 <= i < |msgs| => BelongsTo(ws, msgs[i].hwnd, target))
  }

  function Pick<T>(s: seq<T>, ids: seq<nat>): (r: seq<T>)
    requires forall i | 0 <= i < |ids| :: ids[i] < |s|
    ensures |r| == |ids| && forall i | 0 <= i < |r| :: r[i] == s[ids[i]]
  {
    seq(|ids|, i requires 0 <= i < |ids| => s[ids[i]])
  }

  // The first `k` linked senders cancelled, one after the other.
  ghost function CancelHeads(s: SyncState, k: nat): (r: SyncState)
    requires Inv(s) && k <= |s.chain|
    ensures Inv(r) && r.chain == s.chain[k..]
    ensures |r.phases| == |s.phases|
  {
    if k == 0 then s
    else
      var t := CancelHeads(s, k - 1);
      CancelHeadKeepsInv(t);
      CancelHead(t)
  }

  lemma CancelHeadsStep(s: SyncState, k: nat)
    requires Inv(s) && k < |s.chain|
    ensures CancelHeads(s, k).chain[0] < |CancelHeads(s, k).phases|
    ensures CancelHeads(s, k + 1) == CancelHead(CancelHeads(s, k))
  {
  }

  lemma WalkStarts(ms: seq<bool>)
    ensures AtHead(ms, 0) && Trace(ms, 0) == [] && Marked(ms, 0) == 0
  {
  }

  // What is reachable when the walk stands at node `k`.
  function Left(all: seq<SyncMsg>, ms: seq<bool>, k: nat): seq<SyncMsg>
    requires k <= |ms| == |all|
  {
    Pick(all, Survivors(ms, k)) + all[k..]
  }

  lemma LeftAtHead(all: seq<SyncMsg>, ms: seq<bool>, k: nat)
    requires k < |ms| == |all| && AtHead(ms, k)
    ensures Left(all, ms, k) == all[k..]
    ensures ms[k] ==> AtHead(ms, k + 1) && Left(all, ms, k + 1) == all[k + 1..]
  {
    VisitStep(ms, k);
  }

  // A matching node behind a reachable one goes.
  lemma LeftUnlink(all: seq<SyncMsg>, ms: seq<bool>, k: nat)
    requires 0 < k < |ms| == |all| && ms[k] && !AtHead(ms, k) && !Removed(ms, k - 1)
    ensures var p, l := |Survivors(ms, k)|, Left(all, ms, k);
      && 0 < p < |l| && l[p - 1] == all[k - 1] && l[p] == all[k]
      && Left(all, ms, k + 1) == l[..p] + l[p + 1..]
  {
  }

  // A matching node behind an unlinked one stays.
  lemma LeftStay(all: seq<SyncMsg>, ms: seq<bool>, k: nat)
    requires 0 < k < |ms| == |all| && ms[k] && !AtHead(ms, k) && Removed(ms, k - 1)
    requires forall i, j | 0 <= i < j < |all| :: all[i] != all[j]
    ensures var p, l := |Survivors(ms, k)|, Left(all, ms, k);
      && p < |l| && l[p] == all[k] && all[k - 1] !in l
      && Left(all, ms, k + 1) == l
  {
    hide Survivors, Removed;
    VisitStep(ms, k);
    var r := Survivors(ms, k);
    forall i | 0 <= i < |r| ensures Pick(all, r)[i] != all[k - 1] {
      assert r[i] in r;
    }
  }

  lemma LeftOver(all: seq<SyncMsg>, ms: seq<bool>, k: nat)
    requires k < |ms| == |all| && !ms[k]
    ensures Left(all, ms, k + 1) == Left(all, ms, k)
  {
    VisitStep(ms, k);
    hide Survivors;
  }

  function CancelHead(s: SyncState): SyncState
    requires s.chain != [] && s.chain[0] < |s.phases|
  {
    SyncState(s.chain[1..], s.phases[s.chain[0] := Answered(s.phases[s.chain[0]], Canceled)])
  }

  lemma WakeKeepsInv(s: SyncState, id: nat)
    requires Inv(s) && id < |s.phases| && s.phases[id].Posted?
    ensures Inv(AfterWake(s, id))
  {
  }

  lemma CancelHeadKeepsInv(s: SyncState)
    requires Inv(s) && s.chain != []
    ensures s.chain[0] < |s.phases| && Inv(CancelHead(s))
  {
  }

  // Cancelling the head first and then the others cancels them all.
  lemma CancelHeadFirst(s: SyncState)
    requires Inv(s) && s.chain != []
    ensures s.chain[0] < |s.phases| && AfterCancelAll(CancelHead(s)) == AfterCancelAll(s)
  {
  }
}
