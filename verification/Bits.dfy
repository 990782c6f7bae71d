/** Testing, raising and clearing the bits of a mask in a 32-bit word. */
module Bits {
  predicate Test(w: bv32, b: bv32) {
    w & b != 0
  }

  function Raised(w: bv32, b: bv32): bv32 {
    w | b
  }

  function Cleared(w: bv32, b: bv32): bv32 {
    w & !b
  }

  lemma DisjointBits(w: bv32, a: bv32, b: bv32)
    requires a & b == 0
    ensures (w | a) & b == w & b
    ensures (w & !a) & b == w & b
  {
  }

  lemma SameBit(w: bv32, a: bv32)
    requires a != 0
    ensures (w | a) & a != 0
    ensures (w & !a) & a == 0
  {
  }

  lemma RaiseOne(w: bv32, a: bv32, b: bv32)
    requires a != 0 && (a == b || a & b == 0)
    ensures Test(Raised(w, a), b) <==> a == b || Test(w, b)
  {
    if a == b { SameBit(w, a); } else { DisjointBits(w, a, b); }
  }

  lemma ClearOne(w: bv32, a: bv32, b: bv32)
    requires a != 0 && (a == b || a & b == 0)
    ensures Test(Cleared(w, a), b) <==> a != b && Test(w, b)
  {
    if a == b { SameBit(w, a); } else { DisjointBits(w, a, b); }
  }
}
