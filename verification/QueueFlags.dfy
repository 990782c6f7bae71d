/**
 The word dwState: distinct single bits, so that setting and clearing bits are insertion and
 removal on the set of flags.
 */
module QueueFlags {
  import opened Bits
  import opened QueueState

  const QS_NOTIFYMSG: bv32 := 0x10000000
  const QS_SYNCMSG: bv32 := 0x20000000
  const QS_POSTMSG: bv32 := 0x40000000
  const QS_QUIT: bv32 := 0x80000000
  const QS_PAINT: bv32 := 0x02000000
  const QS_DESKTIMER: bv32 := 0x04000000
  const QS_EMPTY: bv32 := 0

  function Bit(f: Flag): bv32 {
    match f
    case NotifyFlag => QS_NOTIFYMSG
    case SyncFlag => QS_SYNCMSG
    case PostFlag => QS_POSTMSG
    case QuitFlag => QS_QUIT
    case PaintFlag => QS_PAINT
    case DeskTimerFlag => QS_DESKTIMER
  }

  predicate Has(w: bv32, f: Flag) {
    Test(w, Bit(f))
  }

  function FlagsOf(w: bv32): (s: set<Flag>)
    ensures forall f :: f in s <==> Has(w, f)
  {
    set f: Flag | Has(w, f)
  }

  // Every flag is one bit, and no two flags share it.
  lemma DistinctBits(f: Flag, g: Flag)
    ensures Bit(f) != 0 && (f != g ==> Bit(f) & Bit(g) == 0 && Bit(f) != Bit(g))
  {
  }

  lemma RaiseFlag(w: bv32, f: Flag, g: Flag)
    ensures Has(Raised(w, Bit(f)), g) <==> g == f || Has(w, g)
  {
    hide Bit, Test, Raised, Cleared;
    DistinctBits(f, g);
    RaiseOne(w, Bit(f), Bit(g));
  }

  lemma ClearFlag(w: bv32, f: Flag, g: Flag)
    ensures Has(Cleared(w, Bit(f)), g) <==> g != f && Has(w, g)
  {
    hide Bit, Test, Raised, Cleared;
    DistinctBits(f, g);
    ClearOne(w, Bit(f), Bit(g));
  }

  lemma RaiseBit(w: bv32, f: Flag)
    ensures FlagsOf(Raised(w, Bit(f))) == FlagsOf(w) + {f}
  {
    hide Has, Bit, Raised, Cleared;
    var v := Raised(w, Bit(f));
    forall g: Flag ensures Has(v, g) <==> g == f || Has(w, g) {
      RaiseFlag(w, f, g);
    }
  }

  lemma ClearBit(w: bv32, f: Flag)
    ensures FlagsOf(Cleared(w, Bit(f))) == FlagsOf(w) - {f}
  {
    hide Has, Bit, Raised, Cleared;
    var v := Cleared(w, Bit(f));
    forall g: Flag ensures Has(v, g) <==> g != f && Has(w, g) {
      ClearFlag(w, f, g);
    }
  }

  lemma NoBits()
    ensures FlagsOf(QS_EMPTY) == {}
  {
  }
}
