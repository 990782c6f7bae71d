/**
 Whole runs of the thread pool: nothing is lost on the way, tasks are begun in order, and
 shutting down ends with every task done, exactly where the order of the calls allows it.
 */
module PoolRuns {
  import opened Common
  import opened ThreadPool

  ghost predicate IsRun(states: seq<State>, events: seq<Event>) {
    && |states| == |events| + 1
    && (exists workers: nat, submitters: nat :: states[0] == Init(workers, submitters))
    && forall k | 0 <= k < |events| :: Enabled(states[k], events[k]) && states[k + 1] == Step(states[k], events[k])
  }

  lemma OneMoreIdle(ws: seq<Worker>)
    ensures All(ws + [IDLE]) == Plus(All(ws), Holds(IDLE))
  {
    assert (ws + [IDLE])[..|ws|] == ws;
  }

  lemma {:induction false} NobodyHolds(n: nat)
    ensures All(IdleWorkers(n)) == Tally(0, 0, multiset{}, 0.0, 3 * n)
  {
    if n > 0 {
      NobodyHolds(n - 1);
      OneMoreIdle(IdleWorkers(n - 1));
      hide All;
    }
  }

  // In every run, orderly or not, tokens and tasks are conserved, and no worker finds the
  // queue empty before pool_destroy has posted for it.
  lemma {:induction false} AlwaysConserved(states: seq<State>, events: seq<Event>, n: nat)
    requires IsRun(states, events) && n <= |events|
    ensures Inv(states[n])
  {
    hide Inv;
    if n == 0 {
      var w: nat, m: nat :| states[0] == Init(w, m);
      InitInv(w, m);
    } else {
      AlwaysConserved(states, events, n - 1);
      StepKeepsInv(states[n - 1], events[n - 1]);
    }
  }

  lemma InitInv(workers: nat, submitters: nat)
    ensures Inv(Init(workers, submitters)) && DrainInv(Init(workers, submitters))
  {
    hide All, Posting;
    NobodyHolds(workers);
    NobodyPosting(Init(workers, submitters).submitters);
  }

  lemma {:induction false} AlwaysDrains(states: seq<State>, events: seq<Event>, n: nat)
    requires IsRun(states, events) && n <= |events|
    requires forall k | 0 <= k < |events| :: Orderly(states[k], events[k])
    ensures DrainInv(states[n])
  {
    hide Inv, DrainInv, Orderly;
    if n == 0 {
      var w: nat, m: nat :| states[0] == Init(w, m);
      InitInv(w, m);
    } else {
      AlwaysDrains(states, events, n - 1);
      AlwaysConserved(states, events, n - 1);
      StepKeepsDrainInv(states[n - 1], events[n - 1]);
    }
  }

  // What is queued is the end of what was submitted.
  predicate QueueIsRest(s: State) {
    |s.queue| <= |s.submitted| && s.queue == s.submitted[|s.submitted| - |s.queue|..]
  }

  lemma StepKeepsRest(s: State, e: Event)
    requires QueueIsRest(s) && Enabled(s, e)
    ensures QueueIsRest(Step(s, e))
  {
  }

  lemma {:induction false} AlwaysRest(states: seq<State>, events: seq<Event>, n: nat)
    requires IsRun(states, events) && n <= |events|
    ensures QueueIsRest(states[n])
  {
    hide QueueIsRest;
    if n == 0 {
      var w: nat, m: nat :| states[0] == Init(w, m);
      InitRest(w, m);
    } else {
      AlwaysRest(states, events, n - 1);
      StepKeepsRest(states[n - 1], events[n - 1]);
    }
  }

  lemma InitRest(workers: nat, submitters: nat)
    ensures QueueIsRest(Init(workers, submitters))
  {
  }

  // Tasks are begun in the order in which they were submitted: the next one is always the first
  // that has not been taken.
  lemma TakenInOrder(states: seq<State>, events: seq<Event>, n: nat, i: nat)
    requires IsRun(states, events) && n < |events| && events[n] == Fetch(i) && states[n].queue != []
    ensures var s, t := states[n], states[n + 1];
      && i < |t.workers| && |t.queue| == |s.queue| - 1 && t.submitted == s.submitted
      && |s.queue| <= |s.submitted| && t.workers[i].pc == Running(s.submitted[|s.submitted| - |s.queue|])
  {
    AlwaysRest(states, events, n);
    assert Enabled(states[n], events[n]) && states[n + 1] == Step(states[n], events[n]);
  }

  predicate AllExited(s: State) {
    forall i | 0 <= i < |s.workers| :: s.workers[i].pc == Exited
  }

  lemma {:induction false} ExitedHoldNothing(ws: seq<Worker>)
    requires forall i | 0 <= i < |ws| :: ws[i].pc == Exited
    ensures All(ws) == Tally(0, |ws|, multiset{}, 0.0, 0)
  {
    if ws != [] { ExitedHoldNothing(ws[..|ws| - 1]); }
  }

  lemma {:induction false} SumWithout(ts: seq<Task>, k: nat)
    requires k < |ts|
    ensures Sum(ts) == Sum(ts[..k] + ts[k + 1..]) + ts[k].result
  {
    var n := |ts| - 1;
    if k == n {
      assert ts[..k] + ts[k + 1..] == ts[..n];
    } else {
      SumWithout(ts[..n], k);
      assert (ts[..k] + ts[k + 1..])[..n - 1] == ts[..n][..k] + ts[..n][k + 1..];
    }
  }

  lemma MultisetWithout(ts: seq<Task>, k: nat)
    requires k < |ts|
    ensures multiset(ts[..k] + ts[k + 1..]) == multiset(ts) - multiset{ts[k]}
  {
    assert ts == ts[..k] + [ts[k]] + ts[k + 1..];
  }

  lemma {:induction false} SumOfPermutation(a: seq<Task>, b: seq<Task>)
    requires multiset(a) == multiset(b)
    ensures Sum(a) == Sum(b)
  {
    if a == [] {
      assert |multiset(b)| == 0;
    } else {
      var n := |a| - 1;
      assert a[n] in multiset(b);
      var k :| 0 <= k < |b| && b[k] == a[n];
      SumWithout(b, k);
      MultisetWithout(a, n);
      MultisetWithout(b, k);
      assert a[..n] + a[n + 1..] == a[..n];
      SumOfPermutation(a[..n], b[..k] + b[k + 1..]);
    }
  }

  lemma {:induction false} OnceEach(ts: seq<Task>, t: Task)
    requires forall k | 0 <= k < |ts| :: ts[k].tid == k
    ensures multiset(ts)[t] == if t in ts then 1 else 0
  {
    if ts != [] {
      OnceEach(ts[..|ts| - 1], t);
      assert ts == ts[..|ts| - 1] + [ts[|ts| - 1]];
    }
  }

  // When all submits finish before pool_destroy starts and all workers have been joined,
  // every task has run exactly once and the total is the sum of all results - provided there
  // is a worker at all, and only then if there was a task.
  lemma DrainsExactly(states: seq<State>, events: seq<Event>, n: nat)
    requires IsRun(states, events) && n <= |events|
    requires forall k | 0 <= k < |events| :: Orderly(states[k], events[k])
    requires AllExited(states[n]) && states[n].destroyPosts == |states[n].workers|
    ensures |states[n].workers| > 0 ==>
      && states[n].queue == [] && (states[n].destroying ==> states[n].sem == 0)
      && (forall t | t in states[n].submitted :: multiset(states[n].finished)[t] == 1)
      && states[n].count == Sum(states[n].submitted)
    ensures multiset(states[n].finished) == multiset(states[n].submitted)
       <==> |states[n].workers| > 0 || states[n].submitted == []
  {
    var s := states[n];
    AlwaysConserved(states, events, n);
    AlwaysDrains(states, events, n);
    ExitedHoldNothing(s.workers);
    if |s.workers| > 0 {
      assert multiset(s.finished) == multiset(s.submitted);
      SumOfPermutation(s.finished, s.submitted);
      forall t | t in s.submitted ensures multiset(s.finished)[t] == 1 {
        OnceEach(s.submitted, t);
      }
    } else if s.submitted != [] {
      assert |multiset(s.submitted)| == |s.submitted|;
    }
  }

  // Without the order: when all workers have gone, the tasks left behind are as many as the
  // tokens nobody took and the submitters still to post, so every task has run if and only if
  // there are none of either.
  lemma LeftBehindExactly(states: seq<State>, events: seq<Event>, n: nat)
    requires IsRun(states, events) && n <= |events| && AllExited(states[n])
    ensures |states[n].queue| == states[n].sem + Posting(states[n].submitters)
    ensures multiset(states[n].finished) == multiset(states[n].submitted)
       <==> states[n].sem == 0 && forall j | 0 <= j < |states[n].submitters| :: !states[n].submitters[j]
  {
    var s := states[n];
    AlwaysConserved(states, events, n);
    ExitedHoldNothing(s.workers);
    NobodyPosting(s.submitters);
    hide All, Posting, Sum;
    assert |multiset(s.submitted)| == |s.queue| + |multiset(s.finished)|;
  }

  lemma {:induction false} NobodyGot(ws: seq<Worker>)
    requires forall i | 0 <= i < |ws| :: !ws[i].pc.GotToken?
    ensures All(ws).got == 0
  {
    if ws != [] { NobodyGot(ws[..|ws| - 1]); }
  }

  // Once pool_destroy has posted its tokens and no submit is under way, a pool with a live
  // worker can always move; each move decreases Measure, so shutting down ends.
  lemma ShutdownNeverStuck(s: State, i: nat)
    requires Inv(s) && s.destroyPosts == |s.workers| && Posting(s.submitters) == 0
    requires i < |s.workers| && s.workers[i].pc != Exited
    ensures exists e :: IsWorkerStep(e) && Enabled(s, e)
  {
    if k :| 0 <= k < |s.workers| && s.workers[k].pc.GotToken? {
      assert Enabled(s, Fetch(k));
    } else if s.workers[i].pc.Running? {
      assert Enabled(s, Finish(i));
    } else if s.workers[i].pc.Leaving? {
      assert Enabled(s, Leave(i));
    } else {
      NobodyGot(s.workers);
      AllSplits(s.workers, i, s.workers[i]);
      assert Enabled(s, Take(i));
    }
  }

  function RunFrom(s: State, events: seq<Event>): Option<State>
    decreases |events|
  {
    if events == [] then Some(s)
    else if Enabled(s, events[0]) then RunFrom(Step(s, events[0]), events[1..])
    else None
  }

  lemma {:induction false} ShutdownEnds(s: State, events: seq<Event>)
    requires Inv(s) && RunFrom(s, events).Some?
    requires forall k | 0 <= k < |events| :: IsWorkerStep(events[k])
    ensures |events| <= Measure(s)
    decreases |events|
  {
    hide Inv, Step;
    if events != [] {
      WorkerStepKeepsInv(s, events[0]);
      ShutdownEnds(Step(s, events[0]), events[1..]);
    }
  }

  lemma RunOne(s: State, e: Event, rest: seq<Event>)
    requires Enabled(s, e)
    ensures RunFrom(s, [e] + rest) == RunFrom(Step(s, e), rest)
  {
  }

  // Without the order, a task can be lost: one worker, destroyed before the submit.
  lemma LateSubmitIsLost(t: Task)
    requires t.tid == 0
    ensures var events := [BeginDestroy, DestroyPost, Take(0), Fetch(0), Leave(0), Submit(0, t.result)];
      var last := RunFrom(Init(1, 1), events);
      last.Some? && AllExited(last.value) && last.value.queue == [t] && last.value.finished == []
  {
    var s0 := Init(1, 1);
    OneIdle();
    hide IdleWorkers;
    var s1 := s0.(destroying := true);
    var s2 := s1.(sem := 1, destroyPosts := 1);
    var s5 := s1.(destroyPosts := 1, workers := [Worker(Exited, 0.0)]);
    var s6 := s5.(queue := [t], submitters := [true], submitted := [t]);
    assert s1 == Step(s0, BeginDestroy) && s2 == Step(s1, DestroyPost) && s6 == Step(s5, Submit(0, t.result));
    var s3, s4 := WorkerLeavesEarly(s2, s5);
    assert RunFrom(s6, []) == Some(s6) && AllExited(s6);
    hide Step, RunFrom, AllExited;
    var e6 := [Submit(0, t.result)];
    RunOne(s5, Submit(0, t.result), []);
    RunOne(s4, Leave(0), e6);
    RunOne(s3, Fetch(0), [Leave(0)] + e6);
    RunOne(s2, Take(0), [Fetch(0)] + ([Leave(0)] + e6));
    RunOne(s1, DestroyPost, [Take(0)] + ([Fetch(0)] + ([Leave(0)] + e6)));
    RunOne(s0, BeginDestroy, [DestroyPost] + ([Take(0)] + ([Fetch(0)] + ([Leave(0)] + e6))));
    assert [BeginDestroy, DestroyPost, Take(0), Fetch(0), Leave(0), Submit(0, t.result)]
        == [BeginDestroy] + ([DestroyPost] + ([Take(0)] + ([Fetch(0)] + ([Leave(0)] + e6))));
  }

  lemma OneIdle()
    ensures IdleWorkers(1) == [IDLE]
  {
  }

  lemma WorkerLeavesEarly(s2: State, s5: State) returns (s3: State, s4: State)
    requires s2.queue == [] && s2.sem == 1 && s2.count == 0.0 && s2.workers == [IDLE]
    requires s5 == s2.(sem := 0, workers := [Worker(Exited, 0.0)])
    ensures Enabled(s2, Take(0)) && s3 == Step(s2, Take(0))
    ensures Enabled(s3, Fetch(0)) && s4 == Step(s3, Fetch(0))
    ensures Enabled(s4, Leave(0)) && s5 == Step(s4, Leave(0))
  {
    s3 := s2.(sem := 0, workers := [Worker(GotToken, 0.0)]);
    s4 := s2.(sem := 0, workers := [Worker(Leaving, 0.0)]);
  }
}
