/**
 The thread pool: a linked task queue under a mutex and a counting semaphore. Shutting down
 posts one extra token for each worker; a worker that takes a token and finds the queue empty
 adds its result to the total and exits.

 `TaskQueue` is the pointer structure, `State` the protocol between workers, submitters and
 the destroying thread, with one step for each critical section or semaphore operation.
 */
module ThreadPool {
  // A task and the number its function returns.
  datatype Task = Task(tid: nat, result: real)

  // ---- the linked queue ----------------------------------------------------------------

  class Node {
    const task: Task
    var next: Node?

    constructor (task: Task)
      ensures this.task == task && next == null
    {
      this.task := task;
      next := null;
    }
  }

  // The tail pointer is meaningful only while the head is non-null: taking the last task
  // leaves it dangling.
  class TaskQueue {
    var head: Node?
    var tail: Node?
    ghost var nodes: seq<Node>

    ghost predicate Valid()
      reads this, nodes
    {
      && (forall i, j | 0 <= i < j < |nodes| :: nodes[i] != nodes[j])
      && (forall i | 0 <= i < |nodes| - 1 :: nodes[i].next == nodes[i + 1])
      && if nodes == [] then head == null
         else head == nodes[0] && tail == nodes[|nodes| - 1] && tail.next == null
    }

    ghost function Contents(): (s: seq<Task>)
      reads this, nodes
      ensures |s| == |nodes| && forall i | 0 <= i < |s| :: s[i] == nodes[i].task
    {
      seq(|nodes|, i requires 0 <= i < |nodes| reads this, nodes => nodes[i].task)
    }

    constructor ()
      ensures Valid() && Contents() == [] && nodes == []
    {
      head, tail := null, null;
      nodes := [];
    }

    // Allocation and enqueue() of pool_submit.
    method Enqueue(t: Task)
      requires Valid()
      modifies this, nodes
      ensures Valid() && Contents() == old(Contents()) + [t]
      ensures nodes[..|nodes| - 1] == old(nodes) && fresh(nodes[|nodes| - 1])
    {
      var node := new Node(t);
      if head == null {
        head, tail := node, node;
      } else {
        tail.next := node;
        tail := node;
      }
      nodes := nodes + [node];
    }

    method Dequeue() returns (node: Node?)
      requires Valid()
      modifies this
      ensures Valid()
      ensures node == null <==> old(Contents()) == []
      ensures node == null ==> Contents() == [] && nodes == []
      ensures node != null ==> old(Contents()) == [node.task] + Contents() && nodes == old(nodes)[1..]
    {
      node := head;
      if node != null {
        head := node.next;
        nodes := nodes[1..];
      }
    }
  }

  // ---- the protocol --------------------------------------------------------------------

  // At sem_wait; between sem_wait and dequeue; executing a task; found the queue empty and
  // about to add its sum; gone.
  datatype Pc = Waiting | GotToken | Running(task: Task) | Leaving | Exited

  datatype Worker = Worker(pc: Pc, sum: real)

  datatype State = State(
    queue: seq<Task>,
    sem: nat,
    count: real,
    workers: seq<Worker>,
    submitters: seq<bool>,        // true between the unlock and sem_post of pool_submit
    destroying: bool,
    destroyPosts: nat,
    submitted: seq<Task>,         // every task ever enqueued
    finished: seq<Task>)          // every task whose function has returned, in that order

  datatype Event =
    | Submit(j: nat, result: real)
    | SubmitPost(j: nat)
    | BeginDestroy
    | DestroyPost
    | Take(i: nat)
    | Fetch(i: nat)
    | Finish(i: nat)
    | Leave(i: nat)

  predicate IsWorkerStep(e: Event) {
    e.Take? || e.Fetch? || e.Finish? || e.Leave?
  }

  predicate Enabled(s: State, e: Event) {
    match e
    case Submit(j, _) => j < |s.submitters| && !s.submitters[j]
    case SubmitPost(j) => j < |s.submitters| && s.submitters[j]
    case BeginDestroy => !s.destroying
    case DestroyPost => s.destroying && s.destroyPosts < |s.workers|
    case Take(i) => i < |s.workers| && s.workers[i].pc.Waiting? && s.sem > 0
    case Fetch(i) => i < |s.workers| && s.workers[i].pc.GotToken?
    case Finish(i) => i < |s.workers| && s.workers[i].pc.Running?
    case Leave(i) => i < |s.workers| && s.workers[i].pc.Leaving?
  }

  // All submits finish before pool_destroy starts.
  predicate Orderly(s: State, e: Event) {
    && (e.Submit? ==> !s.destroying)
    && (e.BeginDestroy? ==> forall j | 0 <= j < |s.submitters| :: !s.submitters[j])
  }

  function Step(s: State, e: Event): State
    requires Enabled(s, e)
  {
    match e
    case Submit(j, result) =>
      var t := Task(|s.submitted|, result);
      s.(queue := s.queue + [t], submitters := s.submitters[j := true], submitted := s.submitted + [t])
    case SubmitPost(j) => s.(sem := s.sem + 1, submitters := s.submitters[j := false])
    case BeginDestroy => s.(destroying := true)
    case DestroyPost => s.(sem := s.sem + 1, destroyPosts := s.destroyPosts + 1)
    case Take(i) => s.(sem := s.sem - 1, workers := s.workers[i := s.workers[i].(pc := GotToken)])
    case Fetch(i) =>
      if s.queue == [] then s.(workers := s.workers[i := s.workers[i].(pc := Leaving)])
      else s.(queue := s.queue[1..], workers := s.workers[i := s.workers[i].(pc := Running(s.queue[0]))])
    case Finish(i) =>
      var w := s.workers[i];
      s.(workers := s.workers[i := Worker(Waiting, w.sum + w.pc.task.result)],
         finished := s.finished + [w.pc.task])
    case Leave(i) =>
      s.(count := s.count + s.workers[i].sum, workers := s.workers[i := s.workers[i].(pc := Exited)])
  }

  const IDLE := Worker(Waiting, 0.0)

  function IdleWorkers(n: nat): (ws: seq<Worker>)
    ensures |ws| == n
  {
    if n == 0 then [] else IdleWorkers(n - 1) + [IDLE]
  }

  function Init(workers: nat, submitters: nat): State {
    State([], 0, 0.0, IdleWorkers(workers), seq(submitters, i => false), false, 0, [], [])
  }

  // ---- what the workers hold together --------------------------------------------------

  datatype Tally = Tally(got: int, gone: int, running: multiset<Task>, sum: real, weight: int)

  function Plus(a: Tally, b: Tally): Tally {
    Tally(a.got + b.got, a.gone + b.gone, a.running + b.running, a.sum + b.sum, a.weight + b.weight)
  }

  function Holds(w: Worker): Tally {
    match w.pc
    case Waiting => Tally(0, 0, multiset{}, w.sum, 3)
    case GotToken => Tally(1, 0, multiset{}, w.sum, 2)
    case Running(t) => Tally(0, 0, multiset{t}, w.sum, 4)
    case Leaving => Tally(0, 1, multiset{}, w.sum, 1)
    case Exited => Tally(0, 1, multiset{}, 0.0, 0)
  }

  function All(ws: seq<Worker>): (t: Tally)
    ensures 0 <= t.got && 0 <= t.gone <= |ws| && 0 <= t.weight
  {
    if ws == [] then Tally(0, 0, multiset{}, 0.0, 0)
    else Plus(All(ws[..|ws| - 1]), Holds(ws[|ws| - 1]))
  }

  // What the workers other than `i` hold.
  function Others(ws: seq<Worker>, i: nat): (t: Tally)
    requires i < |ws|
    ensures 0 <= t.got && 0 <= t.gone < |ws| && 0 <= t.weight
  {
    if i == |ws| - 1 then All(ws[..i])
    else Plus(Others(ws[..|ws| - 1], i), Holds(ws[|ws| - 1]))
  }

  lemma PlusSwaps(a: Tally, b: Tally, c: Tally)
    ensures Plus(Plus(a, b), c) == Plus(Plus(a, c), b)
  {
  }

  lemma {:induction false} AllSplits(ws: seq<Worker>, i: nat, w: Worker)
    requires i < |ws|
    ensures All(ws) == Plus(Others(ws, i), Holds(ws[i]))
    ensures All(ws[i := w]) == Plus(Others(ws, i), Holds(w))
  {
    hide Plus, Holds;
    var n := |ws| - 1;
    if i == n {
      assert ws[i := w][..n] == ws[..n];
    } else {
      PlusSwaps(Others(ws[..n], i), Holds(ws[i]), Holds(ws[n]));
      PlusSwaps(Others(ws[..n], i), Holds(w), Holds(ws[n]));
      AllSplits(ws[..n], i, w);
      assert ws[i := w][..n] == ws[..n][i := w];
    }
  }

  // The part of that which concerns the work.
  lemma WorkSplits(ws: seq<Worker>, i: nat, w: Worker)
    requires i < |ws|
    ensures All(ws).running == Others(ws, i).running + Holds(ws[i]).running
    ensures All(ws[i := w]).running == Others(ws, i).running + Holds(w).running
    ensures All(ws[i := w]).sum - All(ws).sum == Holds(w).sum - Holds(ws[i]).sum
  {
    AllSplits(ws, i, w);
    hide All, Others, Holds;
  }

  function Posting(submitters: seq<bool>): (n: nat) {
    if submitters == [] then 0
    else Posting(submitters[..|submitters| - 1]) + if submitters[|submitters| - 1] then 1 else 0
  }

  lemma {:induction false} PostingAfter(submitters: seq<bool>, j: nat, b: bool)
    requires j < |submitters|
    ensures Posting(submitters[j := b])
         == Posting(submitters) - (if submitters[j] then 1 else 0) + (if b then 1 else 0)
  {
    var n := |submitters| - 1;
    if j == n {
      assert submitters[j := b][..n] == submitters[..n];
    } else {
      PostingAfter(submitters[..n], j, b);
      assert submitters[j := b][..n] == submitters[..n][j := b];
    }
  }

  lemma {:induction false} NobodyPosting(submitters: seq<bool>)
    ensures Posting(submitters) == 0 <==> forall j | 0 <= j < |submitters| :: !submitters[j]
  {
    if submitters != [] { NobodyPosting(submitters[..|submitters| - 1]); }
  }

  function Sum(ts: seq<Task>): real {
    if ts == [] then 0.0 else Sum(ts[..|ts| - 1]) + ts[|ts| - 1].result
  }

  // ---- invariants ----------------------------------------------------------------------

  // Every token is accounted for: one for each queued task and each shutdown post, less one
  // for each worker that found the queue empty.
  predicate TokensConserved(s: State) {
    s.sem + All(s.workers).got + Posting(s.submitters) == |s.queue| + s.destroyPosts - All(s.workers).gone
  }

  predicate Placed(submitted: seq<Task>, queue: seq<Task>, running: multiset<Task>, finished: seq<Task>) {
    multiset(submitted) == multiset(queue) + running + multiset(finished)
  }

  // Every task is in exactly one place.
  predicate TasksConserved(s: State) {
    && Placed(s.submitted, s.queue, All(s.workers).running, s.finished)
    && forall k | 0 <= k < |s.submitted| :: s.submitted[k].tid == k
  }

  // Every finished result is counted once.
  predicate SumConserved(s: State) {
    s.count + All(s.workers).sum == Sum(s.finished)
  }

  predicate WorkConserved(s: State) {
    TasksConserved(s) && SumConserved(s)
  }

  // No worker leaves without a shutdown post, and only workers finish tasks.
  predicate NoneEarly(s: State) {
    && s.destroyPosts <= |s.workers|
    && (s.destroyPosts > 0 ==> s.destroying)
    && All(s.workers).gone <= s.destroyPosts
    && (s.workers == [] ==> s.finished == [])
  }

  predicate Inv(s: State) {
    TokensConserved(s) && WorkConserved(s) && NoneEarly(s)
  }

  // Once a worker has found the queue empty it stays so.
  predicate DrainInv(s: State) {
    && (s.destroying ==> Posting(s.submitters) == 0)
    && (All(s.workers).gone > 0 ==> s.destroying && s.queue == [])
  }

  // The quantity that every worker step decreases.
  function Measure(s: State): int {
    3 * |s.queue| + All(s.workers).weight
  }

  lemma TakeKeepsInv(s: State, i: nat)
    requires Inv(s) && Enabled(s, Take(i))
    ensures Inv(Step(s, Take(i))) && Measure(Step(s, Take(i))) < Measure(s)
  {
    hide All, Others, Sum;
    AllSplits(s.workers, i, s.workers[i].(pc := GotToken));
  }

  lemma HeadAndTail(ts: seq<Task>)
    requires ts != []
    ensures multiset(ts) == multiset{ts[0]} + multiset(ts[1..])
  {
    assert ts == [ts[0]] + ts[1..];
  }

  lemma MoveTask(submitted: seq<Task>, queue: seq<Task>, running: multiset<Task>, finished: seq<Task>)
    requires queue != [] && Placed(submitted, queue, running + multiset{}, finished)
    ensures Placed(submitted, queue[1..], running + multiset{queue[0]}, finished)
  {
    HeadAndTail(queue);
  }

  lemma FileTask(submitted: seq<Task>, queue: seq<Task>, running: multiset<Task>, finished: seq<Task>, t: Task)
    requires Placed(submitted, queue, running + multiset{t}, finished)
    ensures Placed(submitted, queue, running + multiset{}, finished + [t])
  {
  }

  lemma FetchNothing(s: State, i: nat)
    requires Inv(s) && Enabled(s, Fetch(i)) && s.queue == []
    ensures Inv(Step(s, Fetch(i))) && Measure(Step(s, Fetch(i))) < Measure(s)
  {
    hide All, Others, Sum;
    AllSplits(s.workers, i, s.workers[i].(pc := Leaving));
  }

  // A change that lets no worker leave.
  predicate NobodyLeaves(s: State, t: State) {
    && (t.destroyPosts, t.destroying, |t.workers|) == (s.destroyPosts, s.destroying, |s.workers|)
    && s.workers != []
  }

  lemma StaysNoneEarly(s: State, t: State, gone: int)
    requires NoneEarly(s) && NobodyLeaves(s, t)
    requires All(s.workers).gone == gone && All(t.workers).gone == gone
    ensures NoneEarly(t)
  {
    hide All;
  }

  lemma FetchTask(s: State, i: nat)
    requires Inv(s) && Enabled(s, Fetch(i)) && s.queue != []
    ensures Inv(Step(s, Fetch(i))) && Measure(Step(s, Fetch(i))) < Measure(s)
  {
    FetchKeepsWork(s, i);
    FetchKeepsTokens(s, i);
    assert NobodyLeaves(s, Step(s, Fetch(i)));
    StaysNoneEarly(s, Step(s, Fetch(i)), All(s.workers).gone);
    hide Step, All, WorkConserved, TokensConserved, NoneEarly, Measure;
  }

  lemma FetchKeepsTokens(s: State, i: nat)
    requires TokensConserved(s) && Enabled(s, Fetch(i)) && s.queue != []
    ensures TokensConserved(Step(s, Fetch(i))) && Measure(Step(s, Fetch(i))) < Measure(s)
    ensures All(Step(s, Fetch(i)).workers).gone == All(s.workers).gone
  {
    hide All, Others, NoneEarly;
    AllSplits(s.workers, i, s.workers[i].(pc := Running(s.queue[0])));
  }

  lemma FetchKeepsWork(s: State, i: nat)
    requires WorkConserved(s) && Enabled(s, Fetch(i)) && s.queue != []
    ensures WorkConserved(Step(s, Fetch(i)))
  {
    FetchKeepsTasks(s, i);
    FetchKeepsSum(s, i);
    hide TasksConserved, SumConserved;
  }

  lemma FetchKeepsSum(s: State, i: nat)
    requires SumConserved(s) && Enabled(s, Fetch(i)) && s.queue != []
    ensures SumConserved(Step(s, Fetch(i)))
  {
    hide All, Others, Sum;
    WorkSplits(s.workers, i, s.workers[i].(pc := Running(s.queue[0])));
  }

  lemma FetchKeepsTasks(s: State, i: nat)
    requires TasksConserved(s) && Enabled(s, Fetch(i)) && s.queue != []
    ensures TasksConserved(Step(s, Fetch(i)))
  {
    hide All, Others, Placed;
    WorkSplits(s.workers, i, s.workers[i].(pc := Running(s.queue[0])));
    MoveTask(s.submitted, s.queue, Others(s.workers, i).running, s.finished);
  }

  lemma FetchKeepsInv(s: State, i: nat)
    requires Inv(s) && Enabled(s, Fetch(i))
    ensures Inv(Step(s, Fetch(i))) && Measure(Step(s, Fetch(i))) < Measure(s)
  {
    if s.queue == [] { FetchNothing(s, i); } else { FetchTask(s, i); }
  }

  lemma SumAppend(ts: seq<Task>, t: Task)
    ensures Sum(ts + [t]) == Sum(ts) + t.result
  {
  }

  lemma FinishKeepsInv(s: State, i: nat)
    requires Inv(s) && Enabled(s, Finish(i))
    ensures Inv(Step(s, Finish(i))) && Measure(Step(s, Finish(i))) < Measure(s)
  {
    FinishKeepsWork(s, i);
    FinishKeepsTokens(s, i);
    assert NobodyLeaves(s, Step(s, Finish(i)));
    StaysNoneEarly(s, Step(s, Finish(i)), All(s.workers).gone);
    hide Step, All, WorkConserved, TokensConserved, NoneEarly, Measure;
  }

  lemma FinishKeepsTokens(s: State, i: nat)
    requires TokensConserved(s) && Enabled(s, Finish(i))
    ensures TokensConserved(Step(s, Finish(i))) && Measure(Step(s, Finish(i))) < Measure(s)
    ensures All(Step(s, Finish(i)).workers).gone == All(s.workers).gone
  {
    hide All, Others, NoneEarly;
    var w := s.workers[i];
    AllSplits(s.workers, i, Worker(Waiting, w.sum + w.pc.task.result));
  }

  lemma FinishKeepsWork(s: State, i: nat)
    requires WorkConserved(s) && Enabled(s, Finish(i))
    ensures WorkConserved(Step(s, Finish(i)))
  {
    FinishKeepsTasks(s, i);
    FinishKeepsSum(s, i);
    hide TasksConserved, SumConserved;
  }

  lemma FinishKeepsTasks(s: State, i: nat)
    requires TasksConserved(s) && Enabled(s, Finish(i))
    ensures TasksConserved(Step(s, Finish(i)))
  {
    hide All, Others, Placed;
    var w := s.workers[i];
    WorkSplits(s.workers, i, Worker(Waiting, w.sum + w.pc.task.result));
    FileTask(s.submitted, s.queue, Others(s.workers, i).running, s.finished, w.pc.task);
  }

  lemma FinishKeepsSum(s: State, i: nat)
    requires SumConserved(s) && Enabled(s, Finish(i))
    ensures SumConserved(Step(s, Finish(i)))
  {
    hide All, Others, Sum;
    var w := s.workers[i];
    WorkSplits(s.workers, i, Worker(Waiting, w.sum + w.pc.task.result));
    SumAppend(s.finished, w.pc.task);
  }

  lemma LeaveKeepsInv(s: State, i: nat)
    requires Inv(s) && Enabled(s, Leave(i))
    ensures Inv(Step(s, Leave(i))) && Measure(Step(s, Leave(i))) < Measure(s)
  {
    hide All, Others, Sum;
    AllSplits(s.workers, i, s.workers[i].(pc := Exited));
  }

  lemma WorkerStepKeepsInv(s: State, e: Event)
    requires Inv(s) && Enabled(s, e) && IsWorkerStep(e)
    ensures Inv(Step(s, e)) && Measure(Step(s, e)) < Measure(s)
  {
    hide Inv, Step, Measure;
    match e
    case Take(i) => TakeKeepsInv(s, i);
    case Fetch(i) => FetchKeepsInv(s, i);
    case Finish(i) => FinishKeepsInv(s, i);
    case Leave(i) => LeaveKeepsInv(s, i);
  }

  lemma SubmitKeepsInv(s: State, j: nat, result: real)
    requires Inv(s) && Enabled(s, Submit(j, result))
    ensures Inv(Step(s, Submit(j, result)))
  {
    PostingAfter(s.submitters, j, true);
    QueueTask(s.submitted, s.queue, All(s.workers).running, s.finished, Task(|s.submitted|, result));
    hide All, Posting, Sum, Placed;
  }

  lemma QueueTask(submitted: seq<Task>, queue: seq<Task>, running: multiset<Task>, finished: seq<Task>, t: Task)
    requires Placed(submitted, queue, running, finished)
    ensures Placed(submitted + [t], queue + [t], running, finished)
  {
  }

  lemma PostKeepsInv(s: State, j: nat)
    requires Inv(s) && Enabled(s, SubmitPost(j))
    ensures Inv(Step(s, SubmitPost(j)))
  {
    PostingAfter(s.submitters, j, false);
    hide All, Posting, WorkConserved;
  }

  lemma DestroyKeepsInv(s: State, e: Event)
    requires Inv(s) && Enabled(s, e) && (e.BeginDestroy? || e.DestroyPost?)
    ensures Inv(Step(s, e))
  {
    hide All, Posting, Sum, Placed;
  }

  lemma StepKeepsInv(s: State, e: Event)
    requires Inv(s) && Enabled(s, e)
    ensures Inv(Step(s, e))
  {
    hide Inv, Step;
    match e
    case Submit(j, result) => SubmitKeepsInv(s, j, result);
    case SubmitPost(j) => PostKeepsInv(s, j);
    case BeginDestroy => DestroyKeepsInv(s, e);
    case DestroyPost => DestroyKeepsInv(s, e);
    case _ => WorkerStepKeepsInv(s, e);
  }

  lemma StepKeepsDrainInv(s: State, e: Event)
    requires Inv(s) && DrainInv(s) && Enabled(s, e) && Orderly(s, e)
    ensures DrainInv(Step(s, e))
  {
    hide All, Others, Sum, WorkConserved;
    NobodyPosting(s.submitters);
    match e
    case SubmitPost(j) => PostingAfter(s.submitters, j, false);
    case Take(i) => AllSplits(s.workers, i, Step(s, e).workers[i]);
    case Fetch(i) => AllSplits(s.workers, i, Step(s, e).workers[i]);
    case Finish(i) => AllSplits(s.workers, i, Step(s, e).workers[i]);
    case Leave(i) => AllSplits(s.workers, i, Step(s, e).workers[i]);
    case _ =>
  }
}
