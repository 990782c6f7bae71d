/**
 The sync branch of throwing away a window's messages, as a walk over the linked nodes in
 which `ms[k]` says whether node `k` belongs to the window. A matching node at the head is
 unlinked and then released; further back the walk releases the node first, goes on reading
 it, and takes it as the predecessor of the next one.
 */
module SyncWalk {

  // Everything before node `k` matched, so the walk still has no predecessor.
  predicate AtHead(ms: seq<bool>, k: nat)
    requires k <= |ms|
  {
    forall i | 0 <= i < k :: ms[i]
  }

  // The caller's condition: the matching nodes are all at the front.
  predicate MatchesFirst(ms: seq<bool>) {
    forall i, j | 0 <= i < j < |ms| && ms[j] :: ms[i]
  }

  // Node `k` becomes unreachable: it is popped, or its predecessor is still reachable.
  predicate Removed(ms: seq<bool>, k: nat)
    requires k < |ms|
  {
    ms[k] && (AtHead(ms, k) || !Removed(ms, k - 1))
  }

  // The nodes among the first `k` that stay reachable from the head.
  function Survivors(ms: seq<bool>, k: nat): (r: seq<nat>)
    requires k <= |ms|
    ensures forall i | 0 <= i < |r| :: r[i] < k && !Removed(ms, r[i])
    ensures forall i | 0 <= i < k && !Removed(ms, i) :: i in r
  {
    if k == 0 then []
    else if Removed(ms, k - 1) then Survivors(ms, k - 1)
    else Survivors(ms, k - 1) + [k - 1]
  }

  // How many of the first `k` nodes match.
  function Marked(ms: seq<bool>, k: nat): (n: nat)
    requires k <= |ms|
    ensures n <= k
  {
    if k == 0 then 0 else Marked(ms, k - 1) + if ms[k - 1] then 1 else 0
  }

  datatype Access = Touch(node: nat) | Release(node: nat)

  // What one round of the walk does to the nodes.
  function Visit(ms: seq<bool>, k: nat): seq<Access>
    requires k < |ms|
  {
    if !ms[k] then [Touch(k)]
    else if AtHead(ms, k) then [Touch(k), Release(k)]
    else [Touch(k), Touch(k - 1), Release(k), Touch(k)]
  }

  function Trace(ms: seq<bool>, k: nat): (t: seq<Access>)
    requires k <= |ms|
    ensures forall i | 0 <= i < |t| :: t[i].node < k
  {
    if k == 0 then [] else Trace(ms, k - 1) + Visit(ms, k - 1)
  }

  // The walk looks at every node, and releases exactly the matching ones.
  lemma {:induction false} TraceExactly(ms: seq<bool>, n: nat, k: nat)
    requires k < n <= |ms|
    ensures Touch(k) in Trace(ms, n) && (Release(k) in Trace(ms, n) <==> ms[k])
  {
    if k < n - 1 {
      TraceExactly(ms, n - 1, k);
    } else {
      assert Trace(ms, n) == Trace(ms, k) + Visit(ms, k);
      assert Release(k) !in Trace(ms, k);
    }
  }

  // A node is touched after its sender was released and may have gone.
  predicate UseAfterRelease(t: seq<Access>) {
    exists i, j :: 0 <= i < j < |t| && t[i] == Release(t[j].node) && t[j].Touch?
  }

  lemma {:induction false} SafeWhileFirst(ms: seq<bool>, k: nat)
    requires k <= |ms| && MatchesFirst(ms)
    ensures !UseAfterRelease(Trace(ms, k))
  {
    if k > 0 {
      SafeWhileFirst(ms, k - 1);
      var t, v := Trace(ms, k - 1), Visit(ms, k - 1);
      var u: seq<Access> := t + v;
      forall i, j | 0 <= i < j < |u| && u[j].Touch? ensures u[i] != Release(u[j].node) {
        if j < |t| {
          assert u[i] == t[i] && u[j] == t[j];
        } else {
          assert u[j] == v[j - |t|] == Touch(k - 1);
        }
      }
    }
  }

  lemma {:induction false} UnsafeVisit(ms: seq<bool>, k: nat, n: nat)
    requires k < n <= |ms| && ms[k] && !AtHead(ms, k)
    ensures UseAfterRelease(Trace(ms, n))
  {
    var t := Trace(ms, n - 1);
    if n == k + 1 {
      assert Trace(ms, n)[|t| + 2] == Release(k) && Trace(ms, n)[|t| + 3] == Touch(k);
    } else {
      UnsafeVisit(ms, k, n - 1);
      var i, j :| 0 <= i < j < |t| && t[i] == Release(t[j].node) && t[j].Touch?;
      assert Trace(ms, n)[i] == t[i] && Trace(ms, n)[j] == t[j];
    }
  }

  // The walk never touches a released node if and only if the matching nodes come first.
  lemma WalkIsSafeExactly(ms: seq<bool>)
    ensures !UseAfterRelease(Trace(ms, |ms|)) <==> MatchesFirst(ms)
  {
    if MatchesFirst(ms) {
      SafeWhileFirst(ms, |ms|);
    } else {
      var i, j :| 0 <= i < j < |ms| && ms[j] && !ms[i];
      UnsafeVisit(ms, j, |ms|);
    }
  }

  // It leaves a matching node reachable if and only if two neighbours match behind one that
  // does not.
  lemma WalkIsCompleteExactly(ms: seq<bool>)
    ensures (exists k: nat :: k < |ms| && ms[k] && !Removed(ms, k))
       <==> (exists k: nat :: 0 < k < |ms| && ms[k - 1] && ms[k] && !AtHead(ms, k))
  {
  }

  // The tail pointer, which the walk leaves alone, is the last reachable node if and only if
  // nothing is left or the last node was not unlinked.
  predicate TailIsRight(ms: seq<bool>) {
    var r := Survivors(ms, |ms|);
    r == [] || r[|r| - 1] == |ms| - 1
  }

  lemma TailExactly(ms: seq<bool>)
    requires ms != []
    ensures TailIsRight(ms) <==> AtHead(ms, |ms|) || !(ms[|ms| - 1] && Removed(ms, |ms| - 1))
  {
  }

  lemma {:induction false} FrontIsMarked(ms: seq<bool>, k: nat)
    requires MatchesFirst(ms) && k <= |ms|
    ensures forall i | 0 <= i < k :: ms[i] <==> i < Marked(ms, k)
  {
    if k > 0 { FrontIsMarked(ms, k - 1); }
  }

  // Under the caller's condition the walk is the filter, and the tail stays right.
  lemma WalkIsFilter(ms: seq<bool>)
    requires MatchesFirst(ms)
    ensures forall i: nat | i < |ms| :: Removed(ms, i) <==> ms[i]
    ensures TailIsRight(ms)
  {
  }

  lemma MarkedStep(ms: seq<bool>, k: nat)
    requires k < |ms|
    ensures Marked(ms, k + 1) == Marked(ms, k) + if ms[k] then 1 else 0
  {
  }

  // One round of the walk.
  lemma VisitStep(ms: seq<bool>, k: nat)
    requires k < |ms|
    ensures AtHead(ms, k + 1) <==> AtHead(ms, k) && ms[k]
    ensures AtHead(ms, k) ==> Survivors(ms, k) == []
    ensures AtHead(ms, k) && ms[k] ==> Survivors(ms, k + 1) == []
    ensures !ms[k] ==> Survivors(ms, k + 1) == Survivors(ms, k) + [k]
    ensures !AtHead(ms, k) && ms[k] ==>
      && 0 < k && !MatchesFirst(ms)
      && if Removed(ms, k - 1) then
           Survivors(ms, k + 1) == Survivors(ms, k) + [k] && k - 1 !in Survivors(ms, k)
         else
           Survivors(ms, k + 1) == Survivors(ms, k) == Survivors(ms, k - 1) + [k - 1]
    ensures Trace(ms, k + 1) == Trace(ms, k) + Visit(ms, k)
  {
    if AtHead(ms, k) { NoneSurvives(ms, k); }
  }

  lemma {:induction false} NoneSurvives(ms: seq<bool>, k: nat)
    requires k <= |ms| && AtHead(ms, k)
    ensures Survivors(ms, k) == []
  {
    if k > 0 {
      assert AtHead(ms, k - 1);
      NoneSurvives(ms, k - 1);
    }
  }
}
