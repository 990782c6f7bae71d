/** The key bitmap of 32-bit words (bit 1 = free) and the operations on it, in place. */
module KeyTable {
  import opened Bits
  import opened Common
  import opened ThreadKeys

  // ---- bits of a word ------------------------------------------------------------------

  function Mask(b: nat): bv32
    requires b <= WORD
  {
    (1 as bv32) << b
  }

  predicate Bit(w: bv32, b: nat)
    requires b < WORD
  {
    Test(w, Mask(b))
  }

  lemma OneHot(b: nat)
    requires b < WORD
    ensures Mask(b) != 0 && Mask(b) & (Mask(b) - 1) == 0
  {
  }

  lemma MaskDoubles(b: nat)
    requires b < WORD
    ensures Mask(b + 1) == Mask(b) << 1
  {
  }

  // The bits of `x` are all below that of `m`.
  predicate Below(x: bv32, m: bv32) {
    x & (m - 1) == x
  }

  lemma BelowStart(m: bv32)
    requires m != 0 && m & (m - 1) == 0
    ensures m << 1 != 0 ==> Below(m, m << 1)
  {
  }

  lemma BelowStep(x: bv32, m: bv32)
    requires m != 0 && m & (m - 1) == 0 && Below(x, m)
    ensures m << 1 != 0 ==> Below(x, m << 1)
  {
  }

  lemma BelowIsDisjoint(x: bv32, m: bv32)
    requires m & (m - 1) == 0 && Below(x, m)
    ensures x & m == 0 && m & x == 0
  {
  }

  lemma {:induction false} LowerIsBelow(b: nat, c: nat)
    requires b < c < WORD
    ensures Below(Mask(b), Mask(c))
  {
    hide Mask, Below;
    OneHot(c);
    OneHot(c - 1);
    MaskDoubles(c - 1);
    if b == c - 1 {
      BelowStart(Mask(b));
    } else {
      LowerIsBelow(b, c - 1);
      BelowStep(Mask(b), Mask(c - 1));
    }
  }

  lemma MasksDisjoint(b: nat, c: nat)
    requires b < WORD && c < WORD && b != c
    ensures Mask(b) & Mask(c) == 0
  {
    hide Mask, Below;
    OneHot(b);
    OneHot(c);
    if b < c {
      LowerIsBelow(b, c);
      BelowIsDisjoint(Mask(b), Mask(c));
    } else {
      LowerIsBelow(c, b);
      BelowIsDisjoint(Mask(c), Mask(b));
    }
  }

  // The bits of `w` below the bit of `m` are clear.
  predicate LowClear(w: bv32, m: bv32) {
    w & (m - 1) == 0
  }

  lemma LowClearStep(w: bv32, m: bv32)
    requires m != 0 && m & (m - 1) == 0 && !Test(w, m) && LowClear(w, m)
    ensures LowClear(w, m << 1)
  {
  }

  lemma LowClearStart(w: bv32)
    ensures LowClear(w, Mask(0))
  {
  }

  lemma {:induction false} NoLowBits(w: bv32, n: nat)
    requires n <= WORD && forall b | 0 <= b < n :: !Bit(w, b)
    ensures LowClear(w, Mask(n))
  {
    hide Test, Mask, LowClear;
    if n == 0 {
      LowClearStart(w);
    } else {
      assert !Bit(w, n - 1);
      NoLowBits(w, n - 1);
      OneHot(n - 1);
      MaskDoubles(n - 1);
      LowClearStep(w, Mask(n - 1));
    }
  }

  lemma ZeroWord(w: bv32)
    ensures LowClear(w, Mask(WORD)) ==> w == 0
  {
  }

  lemma ZeroHasNoBit(b: nat)
    requires b < WORD
    ensures !Bit(0, b)
  {
  }

  lemma AllOnes(b: nat)
    requires b < WORD
    ensures Bit(0xffff_ffff, b)
  {
  }

  // A word is non-zero if and only if one of its bits is set.
  lemma SomeBit(w: bv32)
    ensures w != 0 <==> exists b | 0 <= b < WORD :: Bit(w, b)
  {
    hide Bit, Mask, LowClear;
    if forall b | 0 <= b < WORD :: !Bit(w, b) {
      NoLowBits(w, WORD);
      ZeroWord(w);
    } else {
      var b :| 0 <= b < WORD && Bit(w, b);
      ZeroHasNoBit(b);
    }
  }

  // Clearing or setting one bit of a word changes that bit only.
  lemma BitAfter(w: bv32, b: nat, c: nat)
    requires b < WORD && c < WORD
    ensures Bit(Cleared(w, Mask(b)), c) == (Bit(w, c) && c != b)
    ensures Bit(Raised(w, Mask(b)), c) == (Bit(w, c) || c == b)
  {
    hide Mask, Test, Cleared, Raised;
    OneHot(b);
    OneHot(c);
    if b != c {
      MasksDisjoint(b, c);
      NotEqual(Mask(b), Mask(c));
    }
    ClearOne(w, Mask(b), Mask(c));
    RaiseOne(w, Mask(b), Mask(c));
  }

  lemma NotEqual(a: bv32, b: bv32)
    requires a & b == 0 && a != 0
    ensures a != b
  {
  }

  // ---- the bitmap ----------------------------------------------------------------------

  function FreeBits(words: seq<bv32>): (r: seq<bool>)
    ensures |r| == WORD * |words|
  {
    seq(WORD * |words|, k requires 0 <= k < WORD * |words| => Bit(words[k / WORD], k % WORD))
  }

  // Changing bit b of word i changes the entry of key 32 i + b only.
  lemma FreeBitsAfter(words: seq<bv32>, i: nat, b: nat)
    requires i < |words| && b < WORD
    ensures FreeBits(words[i := Cleared(words[i], Mask(b))]) == FreeBits(words)[WORD * i + b := false]
    ensures FreeBits(words[i := Raised(words[i], Mask(b))]) == FreeBits(words)[WORD * i + b := true]
  {
    hide Bit, Mask, Cleared, Raised;
    var c, r := Cleared(words[i], Mask(b)), Raised(words[i], Mask(b));
    forall j | 0 <= j < WORD
      ensures Bit(c, j) == (Bit(words[i], j) && j != b)
      ensures Bit(r, j) == (Bit(words[i], j) || j == b)
    {
      BitAfter(words[i], b, j);
    }
    FreeBitsChange(words, i, b, c, false);
    FreeBitsChange(words, i, b, r, true);
  }

  lemma FreeBitsChange(words: seq<bv32>, i: nat, b: nat, w: bv32, bit: bool)
    requires i < |words| && b < WORD
    requires forall j | 0 <= j < WORD :: Bit(w, j) == if j == b then bit else Bit(words[i], j)
    ensures FreeBits(words[i := w]) == FreeBits(words)[WORD * i + b := bit]
  {
  }

  lemma FirstBit(words: seq<bv32>, i: nat, b: nat)
    requires i < |words| && b < WORD && Bit(words[i], b) && forall j | 0 <= j < b :: !Bit(words[i], j)
    requires forall k | 0 <= k < WORD * i :: !FreeBits(words)[k]
    ensures LeastFree(FreeBits(words)) == Some(WORD * i + b)
  {
    hide Bit;
    var free, k := FreeBits(words), WORD * i + b;
    assert free[k];
    forall j | 0 <= j < k ensures !free[j] {
      if j >= WORD * i { assert j / WORD == i; }
    }
  }

  lemma NoBitHere(words: seq<bv32>, i: nat)
    requires i < |words| && forall b | 0 <= b < WORD :: !Bit(words[i], b)
    ensures forall k | WORD * i <= k < WORD * (i + 1) :: !FreeBits(words)[k]
  {
  }

  // The least set bit, -1 for none.
  method LsbitIndex(mask: bv32) returns (index: int)
    ensures index == -1 ==> mask == 0
    ensures index != -1 ==> 0 <= index < WORD && Bit(mask, index) && forall b | 0 <= b < index :: !Bit(mask, b)
  {
    hide Test, Mask;
    var i := 0;
    while i < WORD
      invariant 0 <= i <= WORD && forall b | 0 <= b < i :: !Bit(mask, b)
    {
      if Test(mask, Mask(i)) {
        return i;
      }
      i := i + 1;
    }
    SomeBit(mask);
    return -1;
  }

  // What creating a key is once the least free one is known.
  lemma CreateKeyIs(s: Keys, destructor: int)
    requires WellFormed(s)
    ensures WellFormed(ThreadKeys.CreateKey(s, destructor).0)
    ensures match LeastFree(s.free)
      case None => ThreadKeys.CreateKey(s, destructor) == (s, None)
      case Some(k) =>
        ThreadKeys.CreateKey(s, destructor)
        == (Keys(s.free[k := false], s.destructors[k := destructor], PlantNull(s.data, k), s.made[k := s.made[k] + 1]), Some(k))
  {
  }

  predicate Apart(a: object, b: object) {
    a != b
  }

  class KeyTable {
    const words: array<bv32>
    const destructors: array<int>
    const threads: array<Option<seq<int>>>
    ghost var made: seq<nat>

    ghost predicate Valid()
      reads this, words, destructors, threads
    {
      && destructors.Length == WORD * words.Length
      && WellFormed(View())
      && Apart(words, destructors) && Apart(destructors, threads) && Apart(words, threads)
    }

    ghost function View(): Keys
      reads this, words, destructors, threads
    {
      Keys(FreeBits(words[..]), destructors[..], threads[..], made)
    }

    constructor (nrWords: nat, nrThreads: nat)
      ensures Valid() && fresh(words) && fresh(destructors) && fresh(threads)
      ensures words.Length == nrWords && threads.Length == nrThreads
      ensures forall k | 0 <= k < WORD * nrWords :: !Allocated(View(), k)
      ensures forall t | 0 <= t < nrThreads :: View().data[t].None?
    {
      words := new bv32[nrWords] (_ => 0xffff_ffff);
      destructors := new int[WORD * nrWords] (_ => NULL);
      threads := new Option<seq<int>>[nrThreads] (_ => None);
      made := seq(WORD * nrWords, i => 0);
      new;
      forall b | 0 <= b < WORD ensures Bit(0xffff_ffff, b) {
        AllOnes(b);
      }
    }

    // Takes the least set bit of the first word that has one.
    method FindKey() returns (key: Option<nat>)
      requires Valid()
      modifies words
      ensures destructors[..] == old(destructors[..]) && threads[..] == old(threads[..])
      ensures key == LeastFree(old(View()).free)
      ensures FreeBits(words[..]) == if key.None? then old(View()).free else old(View()).free[key.value := false]
    {
      hide Bit, Mask, Test, Cleared;
      var i := 0;
      while i < words.Length
        invariant 0 <= i <= words.Length
        invariant forall k | 0 <= k < WORD * i :: !FreeBits(words[..])[k]
        invariant words[..] == old(words[..])
      {
        SomeBit(words[i]);
        if words[i] != 0 {
          var b := LsbitIndex(words[i]);
          FreeBitsAfter(words[..], i, b);
          FirstBit(words[..], i, b);
          words[i] := Cleared(words[i], Mask(b));
          return Some(b + i * WORD);
        }
        NoBitHere(words[..], i);
        i := i + 1;
      }
      return None;
    }

    method CreateKey(destructor: int) returns (key: Option<nat>)
      requires Valid()
      modifies words, destructors, threads, `made
      ensures Valid() && (View(), key) == ThreadKeys.CreateKey(old(View()), destructor)
    {
      hide FreeBits, Bit, Mask, Test, LeastFree, PlantNull, ThreadKeys.CreateKey, WellFormed;
      ghost var s := View();
      CreateKeyIs(s, destructor);
      Sizes();
      key := FindKey();
      if key.Some? {
        InstallKey(key.value, destructor);
        assert View().free == s.free[key.value := false];
      } else {
        assert View() == s;
      }
    }

    lemma Sizes()
      requires Valid()
      ensures destructors.Length == |made| == |View().free|
      ensures forall t | 0 <= t < threads.Length && threads[t].Some? :: destructors.Length <= |threads[t].value|
      ensures LeastFree(View().free).Some? ==> LeastFree(View().free).value < destructors.Length
    {
      hide LeastFree;
      assert forall t | 0 <= t < threads.Length :: View().data[t] == threads[t];
    }

    // The new owner's destructor, and NULL in every thread.
    method InstallKey(key: nat, destructor: int)
      requires key < destructors.Length == |made| && Apart(destructors, threads)
      requires forall t | 0 <= t < threads.Length && threads[t].Some? :: key < |threads[t].value|
      modifies destructors, threads, `made
      ensures destructors[..] == old(destructors[..])[key := destructor]
      ensures threads[..] == PlantNull(old(threads[..]), key)
      ensures made == old(made)[key := old(made)[key] + 1]
    {
      destructors[key] := destructor;
      made := made[key := made[key] + 1];
      PlantNulls(key);
    }

    method PlantNulls(k: nat)
      requires forall t | 0 <= t < threads.Length && threads[t].Some? :: k < |threads[t].value|
      modifies threads
      ensures threads[..] == PlantNull(old(threads[..]), k)
    {
      var i := 0;
      while i < threads.Length
        invariant 0 <= i <= threads.Length
        invariant forall t | 0 <= t < i ::
          threads[t] == if old(threads[t]).Some? then Some(old(threads[t]).value[k := NULL]) else None
        invariant forall t | i <= t < threads.Length :: threads[t] == old(threads[t])
      {
        if threads[i].Some? {
          threads[i] := Some(threads[i].value[k := NULL]);
        }
        i := i + 1;
      }
    }

    method DeleteKey(key: nat)
      requires Valid() && key < WORD * words.Length
      modifies words
      ensures Valid() && View() == ThreadKeys.DeleteKey(old(View()), key)
    {
      hide Bit, Mask, Raised;
      ghost var s := View();
      FreeBitsAfter(words[..], key / WORD, key % WORD);
      words[key / WORD] := Raised(words[key / WORD], Mask(key % WORD));
      assert View() == ThreadKeys.DeleteKey(s, key);
    }

    method SetSpecific(self: nat, key: nat, value: int) returns (ok: bool)
      requires Valid() && Present(View(), self) && key < WORD * words.Length
      modifies threads
      ensures Valid() && (View(), ok) == ThreadKeys.SetSpecific(old(View()), self, key, value)
    {
      hide Mask, Test;
      if Test(words[key / WORD], Mask(key % WORD)) {
        return false;
      }
      ghost var s := View();
      threads[self] := Some(threads[self].value[key := value]);
      assert View() == ThreadKeys.SetSpecific(s, self, key, value).0;
      return true;
    }

    method GetSpecific(self: nat, key: nat) returns (value: int)
      requires Valid() && Present(View(), self) && key < WORD * words.Length
      ensures value == ThreadKeys.GetSpecific(View(), self, key)
    {
      hide Mask, Test;
      if Test(words[key / WORD], Mask(key % WORD)) {
        return NULL;
      }
      return threads[self].value[key];
    }
  }
}
