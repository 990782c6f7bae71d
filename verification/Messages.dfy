/**
 Messages, window handles and the two tests that the queue code applies to them: does a
 message belong to a window (or to a control of that main window), and does a message pass
 the caller's filter.
 */
module Messages {

  // Window handles are pointers in C; only the two distinguished values matter here.
  type Hwnd = int
  const HWND_NULL: Hwnd := 0
  const HWND_INVALID: Hwnd := -1

  datatype Msg = Msg(hwnd: Hwnd, message: nat, wParam: int, lParam: int, time: int)

  const MSG_MOUSEMOVE := 0x0004
  const MSG_NCMOUSEMOVE := 0x000E
  const MSG_PAINT := 0x00B1
  const MSG_DT_MOUSEMOVE := 0x00D4
  const MSG_QUIT := 0x0140
  const MSG_IDLE := 0x0142
  const MSG_TIMEOUT := 0x0143
  const MSG_TIMER := 0x0144
  const MSG_CARETBLINK := 0x0145

  // What the queue code reads of a window: its two type bytes and the main window that
  // contains it. A handle that is not in the table points to no window.
  const TYPE_HWND := 0x01
  const TYPE_CONTROL := 0x12

  datatype Window = Window(dataType: nat, winType: nat, mainWin: Hwnd)

  type Windows = map<Hwnd, Window>

  predicate IsWindow(ws: Windows, h: Hwnd) {
    h != HWND_NULL && h != HWND_INVALID && h in ws && ws[h].dataType == TYPE_HWND
  }

  // The main window of a control, and the null handle for anything else.
  function MainWindowIfControl(ws: Windows, h: Hwnd): Hwnd {
    if IsWindow(ws, h) && ws[h].winType == TYPE_CONTROL then ws[h].mainWin else HWND_NULL
  }

  predicate BelongsTo(ws: Windows, h: Hwnd, target: Hwnd) {
    h == target || MainWindowIfControl(ws, h) == target
  }

  // The messages that survive throwing away those of `target`, in their old order.
  function Keep(ws: Windows, target: Hwnd, s: seq<Msg>): (r: seq<Msg>)
    ensures |r| <= |s|
  {
    if s == [] then []
    else
      var init := Keep(ws, target, s[..|s| - 1]);
      var last := s[|s| - 1];
      if BelongsTo(ws, last.hwnd, target) then init else init + [last]
  }

  // One more processed message extends the kept prefix by that message or by nothing.
  lemma KeepStep(ws: Windows, target: Hwnd, s: seq<Msg>, j: nat)
    requires j < |s|
    ensures Keep(ws, target, s[..j + 1])
         == Keep(ws, target, s[..j]) + (if BelongsTo(ws, s[j].hwnd, target) then [] else [s[j]])
  {
    assert s[..j + 1][..j] == s[..j];
  }

  // Keep is the filter: it splits over concatenation, and a message survives exactly when
  // it is pending and does not belong to the target.
  lemma {:induction false} KeepConcat(ws: Windows, target: Hwnd, a: seq<Msg>, b: seq<Msg>)
    ensures Keep(ws, target, a + b) == Keep(ws, target, a) + Keep(ws, target, b)
  {
    if b == [] {
      assert a + b == a;
    } else {
      assert (a + b)[..|a + b| - 1] == a + b[..|b| - 1];
      KeepConcat(ws, target, a, b[..|b| - 1]);
    }
  }

  lemma {:induction false} KeepMembers(ws: Windows, target: Hwnd, s: seq<Msg>, m: Msg)
    ensures multiset(Keep(ws, target, s))[m]
         == if BelongsTo(ws, m.hwnd, target) then 0 else multiset(s)[m]
  {
    if s != [] {
      KeepMembers(ws, target, s[..|s| - 1], m);
      assert s == s[..|s| - 1] + [s[|s| - 1]];
    }
  }

  // The first `j` messages filtered, the others still to be looked at.
  function Filtered(ws: Windows, target: Hwnd, s: seq<Msg>, j: nat): (t: seq<Msg>)
    requires j <= |s|
  {
    Keep(ws, target, s[..j]) + s[j..]
  }

  function Kept(ws: Windows, target: Hwnd, s: seq<Msg>, j: nat): nat
    requires j <= |s|
  {
    |Keep(ws, target, s[..j])|
  }

  lemma FilterEnds(ws: Windows, target: Hwnd, s: seq<Msg>)
    ensures Filtered(ws, target, s, 0) == s && Kept(ws, target, s, 0) == 0
    ensures Filtered(ws, target, s, |s|) == Keep(ws, target, s)
  {
    assert s[..|s|] == s;
  }

  // One round of the throwing-away loop; `x` is the marked copy of a matching message.
  lemma FilterStep(ws: Windows, target: Hwnd, s: seq<Msg>, j: nat, x: Msg)
    requires j < |s|
    ensures var k := Kept(ws, target, s, j);
      && k <= j
      && var t := Filtered(ws, target, s, j);
      && |t| == |s| - (j - k)
      && t[k] == s[j]
      && if BelongsTo(ws, s[j].hwnd, target) then
           && Kept(ws, target, s, j + 1) == k
           && Filtered(ws, target, s, j + 1) == t[k := x][..k] + t[k := x][k + 1..]
         else
           && Kept(ws, target, s, j + 1) == k + 1
           && Filtered(ws, target, s, j + 1) == t
  {
    KeepStep(ws, target, s, j);
  }

  // IS_MSG_WANTED: both bounds zero means no filter; a single zero bound wants nothing.
  predicate IsWanted(min: nat, max: nat, message: nat) {
    || (min == 0 && max == 0)
    || (0 < min <= max && min <= message <= max)
  }

  // A message belongs to the target if its window is the target, or a valid control of it; the
  // null target also gets everything that is no valid control.
  lemma BelongsExactly(ws: Windows, h: Hwnd, target: Hwnd)
    ensures var control := h != 0 && h != -1 && h in ws && ws[h].dataType == 0x01 && ws[h].winType == 0x12;
      BelongsTo(ws, h, target) <==>
        h == target || (control && ws[h].mainWin == target) || (!control && target == 0)
  {
  }

  // With both bounds zero everything is wanted; with one of them zero nothing is; else what
  // lies between them.
  lemma WantedExactly(min: nat, max: nat, message: nat)
    ensures IsWanted(min, max, message) <==>
      if min == 0 || max == 0 then min == max else min <= message && message <= max
  {
  }
}
