/** Positions on a circle: stepping round it, and the first marked position from a cursor on. */
module Circle {

  // The position after `p` among `n`.
  function Next(n: nat, p: nat): (q: nat)
    requires p < n
    ensures q == if p + 1 == n then 0 else p + 1
  {
    (p + 1) % n
  }

  // How many steps it takes from `p` forward, wrapping, to `s`.
  function Distance(n: nat, p: nat, s: nat): (d: nat)
    requires p < n && s < n
    ensures d < n
  {
    if s >= p then s - p else s + n - p
  }

  // The marked position closest to the cursor.
  predicate Serves(mask: seq<bool>, cursor: nat, slot: nat)
    requires cursor < |mask|
  {
    && slot < |mask| && mask[slot]
    && forall t | 0 <= t < |mask| && mask[t] ::
         Distance(|mask|, cursor, slot) <= Distance(|mask|, cursor, t)
  }

  lemma ServesUnique(mask: seq<bool>, cursor: nat, s: nat, t: nat)
    requires cursor < |mask| && Serves(mask, cursor, s) && Serves(mask, cursor, t)
    ensures s == t
  {
  }

  // That position as a function: the scan without a loop.
  function ServedFrom(mask: seq<bool>, cursor: nat, slot: nat): (s: nat)
    requires cursor < |mask| && slot < |mask|
    requires exists t :: 0 <= t < |mask| && mask[t]
    requires forall t | 0 <= t < |mask| && mask[t] ::
               Distance(|mask|, cursor, slot) <= Distance(|mask|, cursor, t)
    ensures Serves(mask, cursor, s)
    decreases |mask| - Distance(|mask|, cursor, slot)
  {
    if mask[slot] then slot else ServedFrom(mask, cursor, Next(|mask|, slot))
  }

  function ServedSlot(mask: seq<bool>, cursor: nat): (s: nat)
    requires cursor < |mask| && exists t :: 0 <= t < |mask| && mask[t]
    ensures Serves(mask, cursor, s)
  {
    ServedFrom(mask, cursor, cursor)
  }
}
