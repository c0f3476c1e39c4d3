/** Keys as bit vectors: the slot pattern the matcher compares. */
module KeyCodec {
  import opened Base

  /** Bit b of v, the source's (v >> b) & 1. */
  function Bit(v: nat, b: nat): (x: nat)
    ensures x <= 1
  {
    v / Pow2(b) % 2
  }

  method KeyToBits(value: nat, keyBits: nat) returns (bits: seq<nat>)
    ensures |bits| == keyBits
    ensures forall b :: 0 <= b < keyBits ==> bits[b] == Bit(value, b)
  {
    bits := [];
    for b := 0 to keyBits
      invariant |bits| == b
      invariant forall b' :: 0 <= b' < b ==> bits[b'] == Bit(value, b')
    {
      bits := bits + [Bit(value, b)];
    }
  }

  lemma {:induction false} BitShift(v: nat, b: nat)
    ensures Bit(v, b + 1) == Bit(v / 2, b)
  {
    var p := Pow2(b);
    var q, r := v / (2 * p), v % (2 * p);
    assert v == q * (2 * p) + r;
    var r' := r / 2;
    assert v / 2 == q * p + r' by {
      DivModUnique(v, 2, q * p + r', r % 2);
    }
    DivModUnique(v / 2, p, q, r');
  }

  /** Two keys of the universe are equal exactly when all their bits are. */
  lemma {:induction false} BitsDetermineKey(x: nat, y: nat, keyBits: nat)
    requires x < Pow2(keyBits) && y < Pow2(keyBits)
    ensures x == y <==> forall b :: 0 <= b < keyBits ==> Bit(x, b) == Bit(y, b)
    decreases keyBits
  {
    if keyBits > 0 && (forall b :: 0 <= b < keyBits ==> Bit(x, b) == Bit(y, b)) {
      assert Bit(x, 0) == x % 2 && Bit(y, 0) == y % 2;
      forall b | 0 <= b < keyBits - 1
        ensures Bit(x / 2, b) == Bit(y / 2, b)
      {
        BitShift(x, b);
        BitShift(y, b);
      }
      BitsDetermineKey(x / 2, y / 2, keyBits - 1);
    }
  }
}
