/**
 The timer branch of the peek: a mask of expired slots served by a rotating cursor. The
 number of slots is a parameter (the length of the mask).
 */
module TimerSlots {
  import opened Circle

  // The do-while scan. Its "no slot found" exit is taken exactly when the mask is zero.
  method FindExpired(mask: seq<bool>, cursor: nat) returns (slot: int)
    requires cursor < |mask|
    ensures slot == -1 <==> forall t | 0 <= t < |mask| :: !mask[t]
    ensures slot != -1 ==> slot >= 0 && Serves(mask, cursor, slot)
  {
    slot := cursor;
    ghost var d := 0;
    while true
      invariant 0 <= slot < |mask| && d == Distance(|mask|, cursor, slot)
      invariant forall t | 0 <= t < |mask| && Distance(|mask|, cursor, t) < d :: !mask[t]
      decreases |mask| - d
    {
      if mask[slot] {
        break;
      }
      slot := Next(|mask|, slot);
      if slot == cursor {
        assert forall t | 0 <= t < |mask| :: Distance(|mask|, cursor, t) <= d;
        slot := -1;
        break;
      }
      d := d + 1;
    }
  }

  // ---- bounded waiting -----------------------------------------------------------------

  // Consecutive passes through the timer branch. The cursor moves by one each time; between
  // passes anything may happen to the mask.
  ghost predicate IsRun(n: nat, masks: seq<seq<bool>>, cursors: seq<nat>, served: seq<nat>) {
    && |masks| == |cursors| == |served|
    && (forall i | 0 <= i < |masks| :: |masks[i]| == n && cursors[i] < n && Serves(masks[i], cursors[i], served[i]))
    && (forall i | 0 <= i < |masks| - 1 :: cursors[i + 1] == Next(n, cursors[i]))
  }

  // Slot `s` stays expired for as long as it has not been served.
  ghost predicate StaysExpired(masks: seq<seq<bool>>, served: seq<nat>, s: nat)
    requires |masks| == |served|
  {
    forall i | 0 <= i < |masks| && s !in served[..i] :: s < |masks[i]| && masks[i][s]
  }

  lemma {:induction false} CursorAt(n: nat, masks: seq<seq<bool>>, cursors: seq<nat>, served: seq<nat>, s: nat, i: nat)
    requires IsRun(n, masks, cursors, served) && s < n
    requires i < |masks| && i <= Distance(n, cursors[0], s)
    ensures Distance(n, cursors[i], s) == Distance(n, cursors[0], s) - i
  {
    if i > 0 {
      CursorAt(n, masks, cursors, served, s, i - 1);
      assert cursors[i] == Next(n, cursors[i - 1]);
    }
  }

  // An expired slot is served within Distance + 1 passes, however often the others re-expire.
  lemma BoundedWaiting(n: nat, masks: seq<seq<bool>>, cursors: seq<nat>, served: seq<nat>, s: nat)
    requires IsRun(n, masks, cursors, served) && s < n && |masks| > 0
    requires Distance(n, cursors[0], s) < |masks|
    requires StaysExpired(masks, served, s)
    ensures s in served[..Distance(n, cursors[0], s) + 1]
  {
    var d := Distance(n, cursors[0], s);
    CursorAt(n, masks, cursors, served, s, d);
    if s !in served[..d] {
      assert masks[d][s];
      assert Distance(n, cursors[d], served[d]) <= 0;
      assert served[..d + 1][d] == s;
    }
  }

  // The bound is attained: while every slot keeps re-expiring, slot `s` is served in pass
  // Distance and not before.
  lemma BoundIsTight(n: nat, masks: seq<seq<bool>>, cursors: seq<nat>, served: seq<nat>, s: nat, i: nat)
    requires IsRun(n, masks, cursors, served) && s < n && i < |masks|
    requires i <= Distance(n, cursors[0], s)
    requires forall j, t | 0 <= j < |masks| && 0 <= t < n :: masks[j][t]
    ensures served[i] == s <==> i == Distance(n, cursors[0], s)
  {
    CursorAt(n, masks, cursors, served, s, i);
    assert Distance(n, cursors[i], cursors[i]) == 0;
    assert masks[i][cursors[i]];
    assert served[i] == cursors[i];
  }
}
