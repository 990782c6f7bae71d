/**
 The posted-message buffer: a circular array with one slot kept free, in which some messages
 replace an older message of the same key instead of being appended.

 The specification is a bounded sequence (`Post`, `Keep`); the class works on positions.
 */
module PostRing {
  import opened Circle
  import opened Common
  import opened Messages

  // ---- specification -------------------------------------------------------------------

  predicate IsMouseMove(m: Msg) {
    m.message == MSG_MOUSEMOVE || m.message == MSG_NCMOUSEMOVE || m.message == MSG_DT_MOUSEMOVE
  }

  predicate IsTick(m: Msg) {
    m.message == MSG_TIMEOUT || m.message == MSG_IDLE || m.message == MSG_CARETBLINK
  }

  predicate Coalesces(m: Msg) {
    IsMouseMove(m) || IsTick(m)
  }

  // `pending` and `m` carry the same key, and `m` is of a kind that replaces its elders.
  predicate SameKey(pending: Msg, m: Msg) {
    && Coalesces(m)
    && pending.message == m.message
    && pending.hwnd == m.hwnd
    && (IsMouseMove(m) ==> pending.wParam == m.wParam)
  }

  // Which pending messages a new one replaces: mouse moves of the same kind, buttons and window,
  // and time-outs, idle messages and caret blinks of the same kind and window.
  lemma SameKeyExactly(pending: Msg, m: Msg)
    ensures SameKey(pending, m) <==>
      && pending.message == m.message && pending.hwnd == m.hwnd
      && (m.message in {0x0142, 0x0143, 0x0145}
          || (m.message in {0x0004, 0x000E, 0x00D4} && pending.wParam == m.wParam))
  {
  }

  lemma SameKeyCommutes(a: Msg, b: Msg)
    ensures SameKey(a, b) <==> SameKey(b, a)
  {
  }

  predicate HasKey(s: seq<Msg>, m: Msg) {
    exists i | 0 <= i < |s| :: SameKey(s[i], m)
  }

  function FirstWithKey(s: seq<Msg>, m: Msg): (i: nat)
    requires HasKey(s, m)
    ensures i < |s| && SameKey(s[i], m) && forall j | 0 <= j < i :: !SameKey(s[j], m)
  {
    if SameKey(s[0], m) then 0
    else
      assert HasKey(s[1..], m) by {
        var i :| 0 <= i < |s| && SameKey(s[i], m);
        assert SameKey(s[1..][i - 1], m);
      }
      1 + FirstWithKey(s[1..], m)
  }

  function LastWithKey(s: seq<Msg>, m: Msg): (i: nat)
    requires HasKey(s, m)
    ensures i < |s| && SameKey(s[i], m) && forall j | i < j < |s| :: !SameKey(s[j], m)
  {
    if SameKey(s[|s| - 1], m) then |s| - 1
    else
      assert HasKey(s[..|s| - 1], m) by {
        var i :| 0 <= i < |s| && SameKey(s[i], m);
        assert SameKey(s[..|s| - 1][i], m);
      }
      LastWithKey(s[..|s| - 1], m)
  }

  // Mouse moves overwrite the last pending message of their key, ticks the first one; in both
  // cases all fields outside the key are overwritten, so the slot ends up equal to `m`.
  function Post(s: seq<Msg>, capacity: nat, m: Msg): (r: (seq<Msg>, bool))
    ensures r.1 ==> m in r.0
    ensures !r.1 ==> r.0 == s && |s| >= capacity && !HasKey(s, m)
    ensures |s| <= capacity ==> |r.0| <= capacity
  {
    if HasKey(s, m) then
      var i := if IsMouseMove(m) then LastWithKey(s, m) else FirstWithKey(s, m);
      assert s[i := m][i] == m;
      (s[i := m], true)
    else if |s| >= capacity then (s, false)
    else
      assert (s + [m])[|s|] == m;
      (s + [m], true)
  }

  // ---- theorems about every run --------------------------------------------------------

  predicate UniqueKeys(s: seq<Msg>) {
    forall i, j | 0 <= i < |s| && 0 <= j < |s| && SameKey(s[i], s[j]) :: i == j
  }

  // With unique keys the two scans agree: there is at most one candidate.
  lemma ScansAgree(s: seq<Msg>, m: Msg)
    requires UniqueKeys(s) && HasKey(s, m)
    ensures FirstWithKey(s, m) == LastWithKey(s, m)
    ensures forall i | 0 <= i < |s| && SameKey(s[i], m) :: i == FirstWithKey(s, m)
  {
  }

  // With unique keys queueing is: every pending message of the key becomes the new one, else
  // the new one goes behind all others; it fails exactly when neither is possible.
  lemma PostReplacesKey(s: seq<Msg>, capacity: nat, m: Msg)
    requires UniqueKeys(s)
    ensures var (r, ok) := Post(s, capacity, m);
      && (ok <==> HasKey(s, m) || |s| < capacity)
      && (HasKey(s, m) ==> |r| == |s| && forall i | 0 <= i < |s| :: r[i] == if SameKey(s[i], m) then m else s[i])
      && (!HasKey(s, m) ==> r == if ok then s + [m] else s)
  {
    if HasKey(s, m) { ScansAgree(s, m); }
  }

  datatype RingOp =
    | Queue(m: Msg)
    | PeekRemove(min: nat, max: nat)
    | PeekPostRemove(min: nat, max: nat)
    | ThrowAway(ws: Windows, target: Hwnd)
    | Empty

  // PeekPostMessage has its own filter, which accepts a lower bound of zero.
  predicate IsWantedPost(min: nat, max: nat, message: nat) {
    (min == 0 && max == 0) || min <= message <= max
  }

  // Contents and, for the statement about payloads, every message accepted so far.
  datatype RunState = RunState(pending: seq<Msg>, accepted: seq<Msg>)

  function Step(r: RunState, capacity: nat, op: RingOp): RunState {
    match op
    case Queue(m) =>
      var (s, ok) := Post(r.pending, capacity, m);
      RunState(s, if ok then r.accepted + [m] else r.accepted)
    case PeekRemove(min, max) =>
      if r.pending != [] && IsWanted(min, max, r.pending[0].message)
      then r.(pending := r.pending[1..]) else r
    case PeekPostRemove(min, max) =>
      if r.pending != [] && IsWantedPost(min, max, r.pending[0].message)
      then r.(pending := r.pending[1..]) else r
    case ThrowAway(ws, target) => r.(pending := Keep(ws, target, r.pending))
    case Empty => r.(pending := [])
  }

  function Run(capacity: nat, ops: seq<RingOp>): RunState {
    if ops == [] then RunState([], [])
    else Step(Run(capacity, ops[..|ops| - 1]), capacity, ops[|ops| - 1])
  }

  // Removal is from the front, and only of a wanted message.
  lemma RemovalIsFromFront(r: RunState, capacity: nat, min: nat, max: nat)
    ensures var t, u := Step(r, capacity, PeekRemove(min, max)), Step(r, capacity, PeekPostRemove(min, max));
      && (t == r || r.pending == [r.pending[0]] + t.pending) && (u == r || r.pending == [r.pending[0]] + u.pending)
      && (t != r <==> r.pending != [] && IsWanted(min, max, r.pending[0].message))
      && (u != r <==> r.pending != [] && IsWantedPost(min, max, r.pending[0].message))
      && t.accepted == u.accepted == r.accepted
  {
  }

  // `m` is the most recent message of its key in the history `h`.
  predicate Newest(h: seq<Msg>, m: Msg) {
    exists i | 0 <= i < |h| :: h[i] == m && forall j | i < j < |h| :: !SameKey(h[j], m)
  }

  predicate RunInv(r: RunState, capacity: nat) {
    && |r.pending| <= capacity
    && UniqueKeys(r.pending)
    && forall m | m in r.pending :: Newest(r.accepted, m)
  }

  lemma KeepUnique(ws: Windows, target: Hwnd, s: seq<Msg>)
    requires UniqueKeys(s)
    ensures UniqueKeys(Keep(ws, target, s))
    ensures forall m | m in Keep(ws, target, s) :: m in s
  {
    if s != [] {
      var init, last := s[..|s| - 1], s[|s| - 1];
      var k := Keep(ws, target, init);
      KeepUnique(ws, target, init);
      forall i | 0 <= i < |k| ensures !SameKey(k[i], last) && !SameKey(last, k[i]) {
        assert k[i] in init;
        var a :| 0 <= a < |init| && init[a] == k[i];
        SameKeyCommutes(s[a], s[|s| - 1]);
      }
    }
  }

  lemma NewestAppend(h: seq<Msg>, m: Msg, x: Msg)
    requires Newest(h, x) && !SameKey(m, x)
    ensures Newest(h + [m], x)
  {
    var i :| 0 <= i < |h| && h[i] == x && forall j | i < j < |h| :: !SameKey(h[j], x);
    assert (h + [m])[i] == x;
  }

  lemma PostKeepsInv(r: RunState, capacity: nat, m: Msg)
    requires RunInv(r, capacity)
    ensures RunInv(Step(r, capacity, Queue(m)), capacity)
  {
    var r' := Step(r, capacity, Queue(m));
    var s, s' := r.pending, r'.pending;
    if r' != r {
      assert r'.accepted[|r.accepted|] == m;
      assert Newest(r'.accepted, m);
      if HasKey(s, m) {
        ScansAgree(s, m);
        var k := FirstWithKey(s, m);
        assert s' == s[k := m];
        forall i | 0 <= i < |s'| ensures Newest(r'.accepted, s'[i]) {
          if i != k {
            SameKeyCommutes(s[i], m);
            NewestAppend(r.accepted, m, s[i]);
          }
        }
        forall i, j | 0 <= i < |s'| && 0 <= j < |s'| && SameKey(s'[i], s'[j]) ensures i == j {
          assert SameKey(s[i], s[j]);
        }
      } else {
        forall i | 0 <= i < |s| ensures Newest(r'.accepted, s[i]) {
          SameKeyCommutes(s[i], m);
          NewestAppend(r.accepted, m, s[i]);
        }
      }
    }
  }

  lemma StepKeepsInv(r: RunState, capacity: nat, op: RingOp)
    requires RunInv(r, capacity)
    ensures RunInv(Step(r, capacity, op), capacity)
  {
    match op
    case Queue(m) => PostKeepsInv(r, capacity, m);
    case ThrowAway(ws, target) => KeepUnique(ws, target, r.pending);
    case _ =>
  }

  // In every reachable queue at most one coalescing message of each key is pending, and it is
  // the newest one accepted for that key.
  lemma {:induction false} KeysStayUnique(capacity: nat, ops: seq<RingOp>)
    ensures RunInv(Run(capacity, ops), capacity)
  {
    if ops != [] {
      KeysStayUnique(capacity, ops[..|ops| - 1]);
      StepKeepsInv(Run(capacity, ops[..|ops| - 1]), capacity, ops[|ops| - 1]);
    }
  }

  // ---- the circular buffer -------------------------------------------------------------

  // What a buffer with the given positions holds: the messages from `r` up to `w`, wrapping.
  function View(buf: seq<Msg>, r: nat, w: nat): (s: seq<Msg>)
    requires r < |buf| && w < |buf|
    ensures |s| < |buf|
  {
    if r <= w then buf[r..w] else buf[r..] + buf[..w]
  }

  // The array index of the i-th pending message.
  function Slot(n: nat, r: nat, i: nat): (p: nat)
    requires r < n && i < n
    ensures p < n
  {
    if r + i < n then r + i else r + i - n
  }

  lemma SlotView(buf: seq<Msg>, r: nat, w: nat, i: nat)
    requires r < |buf| && w < |buf| && i <= |View(buf, r, w)|
    ensures i < |View(buf, r, w)| ==>
              Slot(|buf|, r, i) != w && buf[Slot(|buf|, r, i)] == View(buf, r, w)[i]
    ensures i == |View(buf, r, w)| ==> Slot(|buf|, r, i) == w
    ensures Slot(|buf|, r, 0) == r
    ensures i + 1 < |buf| ==> Next(|buf|, Slot(|buf|, r, i)) == Slot(|buf|, r, i + 1)
    ensures Next(|buf|, w) == r <==> |View(buf, r, w)| == |buf| - 1
  {
  }

  // Writing the slot of a pending message changes exactly that message.
  lemma WriteSlot(buf: seq<Msg>, r: nat, w: nat, i: nat, m: Msg)
    requires r < |buf| && w < |buf| && i < |View(buf, r, w)|
    ensures View(buf[Slot(|buf|, r, i) := m], r, w) == View(buf, r, w)[i := m]
  {
  }

  // Writing the free slot and advancing the write position appends.
  lemma WriteBack(buf: seq<Msg>, r: nat, w: nat, m: Msg)
    requires r < |buf| && w < |buf| && Next(|buf|, w) != r
    ensures View(buf[w := m], r, Next(|buf|, w)) == View(buf, r, w) + [m]
  {
  }

  // Advancing the read position drops the front.
  lemma AdvanceRead(buf: seq<Msg>, r: nat, w: nat)
    requires r < |buf| && w < |buf| && r != w
    ensures View(buf, r, w) != [] && buf[r] == View(buf, r, w)[0]
    ensures View(buf, Next(|buf|, r), w) == View(buf, r, w)[1..]
  {
  }

  // Moving the write position back drops the last message.
  lemma RetreatWrite(buf: seq<Msg>, r: nat, w: nat)
    requires r < |buf| && w < |buf| && r != w
    ensures View(buf, r, if w > 0 then w - 1 else |buf| - 1)
         == View(buf, r, w)[..|View(buf, r, w)| - 1]
  {
  }

  // Message `i` overwritten by its successors up to `k`, which is about to be overwritten.
  function Shifted(s: seq<Msg>, i: nat, k: nat): (t: seq<Msg>)
    requires i <= k < |s|
    ensures |t| == |s|
  {
    s[..i] + s[i + 1..k + 1] + s[k..]
  }

  lemma ShiftStart(s: seq<Msg>, i: nat)
    requires i < |s|
    ensures Shifted(s, i, i) == s
  {
  }

  // One round of the compaction loop.
  lemma ShiftStep(buf: seq<Msg>, r: nat, w: nat, s: seq<Msg>, i: nat, k: nat)
    requires r < |buf| && w < |buf| && i <= k && k + 1 < |s|
    requires View(buf, r, w) == Shifted(s, i, k)
    ensures View(buf[Slot(|buf|, r, k) := buf[Slot(|buf|, r, k + 1)]], r, w) == Shifted(s, i, k + 1)
  {
    SlotView(buf, r, w, k + 1);
    WriteSlot(buf, r, w, k, buf[Slot(|buf|, r, k + 1)]);
    assert Shifted(s, i, k)[k := s[k + 1]] == Shifted(s, i, k + 1);
  }

  // The end of the compaction loop.
  lemma ShiftEnd(buf: seq<Msg>, r: nat, w: nat, s: seq<Msg>, i: nat)
    requires r < |buf| && w < |buf| && i < |s|
    requires View(buf, r, w) == Shifted(s, i, |s| - 1)
    ensures View(buf, r, if w > 0 then w - 1 else |buf| - 1) == s[..i] + s[i + 1..]
  {
    RetreatWrite(buf, r, w);
    assert Shifted(s, i, |s| - 1)[..|s| - 1] == s[..i] + s[i + 1..];
  }

  class Ring {
    var msg: array<Msg>
    var readpos: nat
    var writepos: nat

    ghost predicate Valid()
      reads this, msg
    {
      readpos < msg.Length && writepos < msg.Length
    }

    ghost function Capacity(): nat
      reads this, msg
      requires Valid()
    {
      msg.Length - 1
    }

    ghost function Contents(): (s: seq<Msg>)
      reads this, msg
      requires Valid()
      ensures |s| <= Capacity()
    {
      View(msg[..], readpos, writepos)
    }

    constructor (len: nat, fill: Msg)
      requires 0 < len
      ensures Valid() && fresh(msg) && Capacity() == len - 1 && Contents() == []
    {
      msg := new Msg[len](_ => fill);
      readpos, writepos := 0, 0;
    }

    // The duplicate scan for mouse moves keeps going and remembers the last match.
    method ScanLast(m: Msg) returns (found: Option<nat>)
      requires Valid() && IsMouseMove(m)
      ensures found.Some? <==> HasKey(Contents(), m)
      ensures found.Some? ==> found.value == Slot(msg.Length, readpos, LastWithKey(Contents(), m))
    {
      found := None;
      var pos := readpos;
      ghost var i, last := 0, 0;
      ghost var s := Contents();
      while pos != writepos
        invariant i <= |s| && pos == Slot(msg.Length, readpos, i)
        invariant found.None? ==> forall j | 0 <= j < i :: !SameKey(s[j], m)
        invariant found.Some? ==>
            && last < i && SameKey(s[last], m) && found.value == Slot(msg.Length, readpos, last)
            && forall j | last < j < i :: !SameKey(s[j], m)
        decreases |s| - i
      {
        SlotView(msg[..], readpos, writepos, i);
        var aMsg := msg[pos];
        if aMsg.message == m.message && aMsg.wParam == m.wParam && aMsg.hwnd == m.hwnd {
          found, last := Some(pos), i;
        }
        pos, i := Next(msg.Length, pos), i + 1;
      }
      SlotView(msg[..], readpos, writepos, i);
      if found.Some? {
        assert HasKey(s, m);
        assert LastWithKey(s, m) == last;
      }
    }

    // The scan for ticks stops at the first match.
    method ScanFirst(m: Msg) returns (found: Option<nat>)
      requires Valid() && IsTick(m)
      ensures found.Some? <==> HasKey(Contents(), m)
      ensures found.Some? ==> found.value == Slot(msg.Length, readpos, FirstWithKey(Contents(), m))
    {
      var pos := readpos;
      ghost var i := 0;
      ghost var s := Contents();
      while pos != writepos
        invariant i <= |s| && pos == Slot(msg.Length, readpos, i)
        invariant forall j | 0 <= j < i :: !SameKey(s[j], m)
        decreases |s| - i
      {
        SlotView(msg[..], readpos, writepos, i);
        var aMsg := msg[pos];
        if aMsg.message == m.message && aMsg.hwnd == m.hwnd {
          assert SameKey(s[i], m);
          assert FirstWithKey(s, m) == i;
          return Some(pos);
        }
        pos, i := Next(msg.Length, pos), i + 1;
      }
      SlotView(msg[..], readpos, writepos, i);
      found := None;
    }

    // The buffer part of kernel_QueueMessage.
    method Queue(m: Msg) returns (ok: bool)
      requires Valid()
      modifies this, msg
      ensures Valid() && msg == old(msg)
      ensures (Contents(), ok) == Post(old(Contents()), Capacity(), m)
    {
      hide View, Slot, Next, LastWithKey, FirstWithKey, HasKey;
      ghost var s := Contents();
      var found := None;
      if IsMouseMove(m) {
        found := ScanLast(m);
      } else if IsTick(m) {
        found := ScanFirst(m);
      }
      if found.Some? {
        ghost var i := if IsMouseMove(m) then LastWithKey(s, m) else FirstWithKey(s, m);
        SlotView(msg[..], readpos, writepos, i);
        WriteSlot(msg[..], readpos, writepos, i, m);
        var pos := found.value;
        if IsMouseMove(m) {
          msg[pos] := msg[pos].(lParam := m.lParam, time := m.time);
        } else {
          msg[pos] := msg[pos].(wParam := m.wParam, lParam := m.lParam, time := m.time);
        }
        assert msg[pos] == m;
        return true;
      }
      SlotView(msg[..], readpos, writepos, 0);
      if Next(msg.Length, writepos) == readpos {
        return false;
      }
      WriteBack(msg[..], readpos, writepos, m);
      msg[writepos] := m;
      writepos := Next(msg.Length, writepos);
      return true;
    }

    predicate IsEmpty()
      reads this, msg
      requires Valid()
      ensures IsEmpty() <==> Contents() == []
    {
      readpos == writepos
    }

    function Front(): (m: Msg)
      reads this, msg
      requires Valid() && !IsEmpty()
      ensures m == Contents()[0]
    {
      msg[readpos]
    }

    // The removing branch shared by PeekMessageEx and PeekPostMessage.
    method Dequeue() returns (m: Msg)
      requires Valid() && !IsEmpty()
      modifies this`readpos
      ensures Valid() && old(Contents()) == [m] + Contents()
    {
      AdvanceRead(msg[..], readpos, writepos);
      m := msg[readpos];
      readpos := Next(msg.Length, readpos);
    }

    // The compaction loop: closes the gap at array index `gap`, which holds message `i`.
    method CloseGap(gap: nat, ghost i: nat)
      requires Valid() && i < |Contents()| && gap == Slot(msg.Length, readpos, i)
      modifies this`writepos, msg
      ensures Valid() && Contents() == old(Contents())[..i] + old(Contents())[i + 1..]
    {
      hide View, Slot, Next, Shifted;
      ghost var s, k := Contents(), i;
      var pos, oldPos := gap, gap;
      SlotView(msg[..], readpos, writepos, k);
      pos := Next(msg.Length, pos);
      ShiftStart(s, i);
      while pos != writepos
        invariant Valid() && readpos == old(readpos) && writepos == old(writepos)
        invariant i <= k < |s| && Contents() == Shifted(s, i, k)
        invariant oldPos == Slot(msg.Length, readpos, k) && pos == Slot(msg.Length, readpos, k + 1)
        decreases |s| - k
      {
        SlotView(msg[..], readpos, writepos, k + 1);
        ShiftStep(msg[..], readpos, writepos, s, i, k);
        ghost var buf := msg[..];
        msg[oldPos] := msg[pos];
        assert msg[..] == buf[oldPos := buf[pos]];
        oldPos, k := pos, k + 1;
        pos := Next(msg.Length, pos);
        SlotView(msg[..], readpos, writepos, k);
      }
      SlotView(msg[..], readpos, writepos, k + 1);
      ShiftEnd(msg[..], readpos, writepos, s, i);
      writepos := if writepos > 0 then writepos - 1 else msg.Length - 1;
    }

    // The posted-message part of __mg_throw_away_messages.
    method ThrowAway(ws: Windows, target: Hwnd) returns (count: nat)
      requires Valid()
      modifies this, msg
      ensures Valid() && msg == old(msg)
      ensures Contents() == Keep(ws, target, old(Contents()))
      ensures count == |old(Contents())| - |Contents()|
    {
      hide View, Slot, Next, Keep, Filtered, Kept, BelongsTo, IsWanted;
      ghost var s, j := Contents(), 0;
      var pos := readpos;
      count := 0;
      FilterEnds(ws, target, s);
      SlotView(msg[..], readpos, writepos, 0);
      while pos != writepos
        invariant Valid() && msg == old(msg) && readpos == old(readpos)
        invariant j <= |s| && Contents() == Filtered(ws, target, s, j)
        invariant |Contents()| == |s| - count && Kept(ws, target, s, j) == j - count
        invariant pos == Slot(msg.Length, readpos, j - count)
        decreases |s| - j
      {
        ghost var i := j - count;
        SlotView(msg[..], readpos, writepos, i);
        var m := msg[pos];
        FilterStep(ws, target, s, j, m.(hwnd := HWND_INVALID));
        if BelongsTo(ws, m.hwnd, target) {
          count := count + 1;
          WriteSlot(msg[..], readpos, writepos, i, m.(hwnd := HWND_INVALID));
          msg[pos] := m.(hwnd := HWND_INVALID);
          CloseGap(pos, i);
        } else {
          pos := Next(msg.Length, pos);
        }
        j := j + 1;
      }
      SlotView(msg[..], readpos, writepos, j - count);
      assert j == |s|;
    }

    // The posted-message part of EmptyMessageQueue.
    method Empty()
      requires Valid()
      modifies this
      ensures Valid() && msg == old(msg) && Contents() == []
    {
      readpos, writepos := 0, 0;
    }
  }
}
