/**
 CRC-32: the table-driven loop computes the bit-at-a-time definition, and no burst of up to 32 bits goes unnoticed.
 */
module Crc {
  import opened Base

  /** Bits of a word, lowest first. */
  type Bits = seq<bool>

  function NatBits(v: nat, n: nat): (b: Bits)
    ensures |b| == n
  {
    if n == 0 then [] else [v % 2 == 1] + NatBits(v / 2, n - 1)
  }

  function BitsNat(b: Bits): (v: nat)
    ensures v < Pow2(|b|)
  {
    if b == [] then 0 else (if b[0] then 1 else 0) + 2 * BitsNat(b[1..])
  }

  lemma {:induction false} NatRoundTrip(v: nat, n: nat)
    requires v < Pow2(n)
    ensures BitsNat(NatBits(v, n)) == v
  {
    if n > 0 {
      NatRoundTrip(v / 2, n - 1);
    }
  }

  lemma {:induction false} BitsRoundTrip(b: Bits)
    ensures NatBits(BitsNat(b), |b|) == b
  {
    if b != [] {
      BitsRoundTrip(b[1..]);
      var rest := BitsNat(b[1..]);
      assert BitsNat(b) / 2 == rest && BitsNat(b) % 2 == if b[0] then 1 else 0;
    }
  }

  lemma {:induction false} TopBit(v: nat, n: nat)
    requires 0 < n && Pow2(n - 1) <= v < Pow2(n)
    ensures NatBits(v, n)[n - 1]
  {
    if n > 1 {
      TopBit(v / 2, n - 1);
    }
  }

  function Xor(a: Bits, b: Bits): (c: Bits)
    requires |a| == |b|
    ensures |c| == |a| && forall i :: 0 <= i < |a| ==> c[i] == (a[i] != b[i])
  {
    seq(|a|, i requires 0 <= i < |a| => a[i] != b[i])
  }

  /** A word shifted right by k, zeros coming in at the top. */
  function Shr(a: Bits, k: nat): (c: Bits)
    ensures |c| == |a| && forall i :: 0 <= i < |a| ==> c[i] == (i + k < |a| && a[i + k])
  {
    seq(|a|, i requires 0 <= i < |a| => i + k < |a| && a[i + k])
  }

  /** Some bits as a 32-bit word, zeros above. */
  function Pad(b: Bits): (c: Bits)
    requires |b| <= 32
    ensures |c| == 32 && forall i :: 0 <= i < 32 ==> c[i] == (i < |b| && b[i])
  {
    seq(32, i requires 0 <= i < 32 => i < |b| && b[i])
  }

  const POLYNOMIAL: nat := 0xEDB88320

  /** The reflected polynomial; its top bit is set. */
  function Poly(): (p: Bits)
    ensures |p| == 32 && p[31]
  {
    Pow2At31();
    TopBit(POLYNOMIAL, 32);
    NatBits(POLYNOMIAL, 32)
  }

  lemma {:induction false} Pow2At31()
    ensures Pow2(31) <= POLYNOMIAL < Pow2(32)
  {
    Pow2Of32();
    assert Pow2(32) == 2 * Pow2(31);
  }

  // ---- the definition, one bit at a time ----------------------------------

  function FeedBit(s: Bits, bit: bool): (r: Bits)
    requires |s| == 32
    ensures |r| == 32
  {
    if s[0] != bit then Xor(Poly(), Shr(s, 1)) else Shr(s, 1)
  }

  function FeedBits(s: Bits, bits: Bits): (r: Bits)
    requires |s| == 32
    ensures |r| == 32
    decreases |bits|
  {
    if bits == [] then s else FeedBits(FeedBit(s, bits[0]), bits[1..])
  }

  /** The bits of a message: each byte from its lowest bit. */
  function AllBits(data: seq<byte>): (bits: Bits)
    ensures |bits| == 8 * |data|
  {
    if data == [] then [] else NatBits(data[0], 8) + AllBits(data[1..])
  }

  function Ones(): (b: Bits)
    ensures |b| == 32 && forall i :: 0 <= i < 32 ==> b[i]
  {
    seq(32, i => true)
  }

  /** CRC-32 of section 3.2.9 of IEEE 802.3: all ones in, feed every bit, complement. */
  function Checksum(data: seq<byte>): (c: nat)
    ensures c < Pow2(32)
  {
    BitsNat(Xor(FeedBits(Ones(), AllBits(data)), Ones()))
  }

  // ---- steps without input ------------------------------------------------

  function Step(s: Bits): (r: Bits)
    requires |s| == 32
    ensures |r| == 32
  {
    FeedBit(s, false)
  }

  function Steps(n: nat, s: Bits): (r: Bits)
    requires |s| == 32
    ensures |r| == 32
  {
    if n == 0 then s else Steps(n - 1, Step(s))
  }

  lemma {:induction false} StepLinear(a: Bits, b: Bits)
    requires |a| == 32 && |b| == 32
    ensures Step(Xor(a, b)) == Xor(Step(a), Step(b))
  {
    hide Poly;
    forall i | 0 <= i < 32
      ensures Step(Xor(a, b))[i] == Xor(Step(a), Step(b))[i]
    {
    }
  }

  lemma {:induction false} StepsLinear(n: nat, a: Bits, b: Bits)
    requires |a| == 32 && |b| == 32
    ensures Steps(n, Xor(a, b)) == Xor(Steps(n, a), Steps(n, b))
  {
    hide Step;
    if n > 0 {
      StepLinear(a, b);
      StepsLinear(n - 1, Step(a), Step(b));
    }
  }

  /** The top bit of the polynomial keeps what a step shifts out. */
  lemma {:induction false} StepInjective(a: Bits, b: Bits)
    requires |a| == 32 && |b| == 32 && Step(a) == Step(b)
    ensures a == b
  {
    hide Poly;
    assert Step(a)[31] == a[0] && Step(b)[31] == b[0];
    forall i | 0 < i < 32
      ensures a[i] == b[i]
    {
      assert Step(a)[i - 1] == (a[i] != (a[0] && Poly()[i - 1]));
      assert Step(b)[i - 1] == (b[i] != (b[0] && Poly()[i - 1]));
    }
  }

  lemma {:induction false} StepsInjective(n: nat, a: Bits, b: Bits)
    requires |a| == 32 && |b| == 32 && Steps(n, a) == Steps(n, b)
    ensures a == b
  {
    hide Step;
    if n > 0 {
      StepsInjective(n - 1, Step(a), Step(b));
      StepInjective(a, b);
    }
  }

  lemma {:induction false} StepOfEven(s: Bits)
    requires |s| == 32 && !s[0]
    ensures Step(s) == Shr(s, 1)
  {
  }

  /** A bit fed in is a bit added to the state before the step. */
  lemma {:induction false} FeedIsStep(s: Bits, bit: bool)
    requires |s| == 32
    ensures FeedBit(s, bit) == Step(Xor(s, Pad([bit])))
  {
    hide Poly;
    var x := Xor(s, Pad([bit]));
    assert x[0] == (s[0] != bit);
    assert Shr(x, 1) == Shr(s, 1);
  }

  /** Up to 32 bits fed in one by one are that word added to the state before as many steps. */
  lemma {:induction false} FeedBitsIsSteps(s: Bits, bits: Bits)
    requires |s| == 32 && |bits| <= 32
    ensures FeedBits(s, bits) == Steps(|bits|, Xor(s, Pad(bits)))
    decreases |bits|
  {
    hide Poly, Step, FeedBit;
    if bits == [] {
      assert Xor(s, Pad(bits)) == s;
    } else {
      var rest := bits[1..];
      var x := Xor(s, Pad([bits[0]]));
      FeedIsStep(s, bits[0]);
      FeedBitsIsSteps(Step(x), rest);
      var later := Pad([false] + rest);
      StepOfEven(later);
      assert Shr(later, 1) == Pad(rest);
      StepLinear(x, later);
      assert Xor(x, later) == Xor(s, Pad(bits));
    }
  }

  lemma {:induction false} FeedBitsAppend(s: Bits, x: Bits, y: Bits)
    requires |s| == 32
    ensures FeedBits(s, x + y) == FeedBits(FeedBits(s, x), y)
    decreases |x|
  {
    hide FeedBit;
    if x == [] {
      assert x + y == y;
    } else {
      assert (x + y)[1..] == x[1..] + y;
      FeedBitsAppend(FeedBit(s, x[0]), x[1..], y);
    }
  }

  lemma {:induction false} FeedKeepsApart(a: Bits, b: Bits, bits: Bits)
    requires |a| == 32 && |b| == 32 && a != b
    ensures FeedBits(a, bits) != FeedBits(b, bits)
    decreases |bits|
  {
    hide FeedBit;
    if bits != [] {
      var pad := Pad([bits[0]]);
      FeedIsStep(a, bits[0]);
      FeedIsStep(b, bits[0]);
      XorKeepsApart(a, b, pad);
      if FeedBit(a, bits[0]) == FeedBit(b, bits[0]) {
        StepInjective(Xor(a, pad), Xor(b, pad));
      }
      FeedKeepsApart(FeedBit(a, bits[0]), FeedBit(b, bits[0]), bits[1..]);
    }
  }

  lemma {:induction false} XorKeepsApart(a: Bits, b: Bits, c: Bits)
    requires |a| == |b| == |c| && a != b
    ensures Xor(a, c) != Xor(b, c)
  {
    var i :| 0 <= i < |a| && a[i] != b[i];
    assert Xor(a, c)[i] != Xor(b, c)[i];
  }

  /** Two messages that differ only inside 32 consecutive bits leave different states. */
  lemma {:induction false} BurstSeen(s: Bits, w: Bits, w': Bits, rest: Bits)
    requires |s| == 32 && |w| == |w'| <= 32 && w != w'
    ensures FeedBits(s, w + rest) != FeedBits(s, w' + rest)
  {
    hide FeedBits, Steps;
    FeedBitsAppend(s, w, rest);
    FeedBitsAppend(s, w', rest);
    FeedBitsIsSteps(s, w);
    FeedBitsIsSteps(s, w');
    var i :| 0 <= i < |w| && w[i] != w'[i];
    assert Pad(w)[i] != Pad(w')[i];
    assert Xor(s, Pad(w))[i] != Xor(s, Pad(w'))[i];
    if FeedBits(s, w) == FeedBits(s, w') {
      StepsInjective(|w|, Xor(s, Pad(w)), Xor(s, Pad(w')));
    }
    FeedKeepsApart(FeedBits(s, w), FeedBits(s, w'), rest);
  }

  lemma {:induction false} AllBitsAppend(x: seq<byte>, y: seq<byte>)
    ensures AllBits(x + y) == AllBits(x) + AllBits(y)
  {
    if x == [] {
      assert x + y == y;
    } else {
      assert (x + y)[1..] == x[1..] + y;
      AllBitsAppend(x[1..], y);
    }
  }

  lemma {:induction false} AllBitsInjective(x: seq<byte>, y: seq<byte>)
    requires |x| == |y| && AllBits(x) == AllBits(y)
    ensures x == y
  {
    if x != [] {
      assert NatBits(x[0], 8) == AllBits(x)[..8] && NatBits(y[0], 8) == AllBits(y)[..8];
      assert AllBits(x[1..]) == AllBits(x)[8..] && AllBits(y[1..]) == AllBits(y)[8..];
      Pow2Of8();
      NatRoundTrip(x[0], 8);
      NatRoundTrip(y[0], 8);
      AllBitsInjective(x[1..], y[1..]);
      assert x == [x[0]] + x[1..] && y == [y[0]] + y[1..];
    }
  }

  lemma {:induction false} Pow2Of8()
    ensures Pow2(8) == 256
  {
    assert Pow2(4) == 16;
  }

  /** A change confined to at most four consecutive bytes changes the checksum. */
  lemma {:induction false} BurstChangesChecksum(before: seq<byte>, w: seq<byte>, w': seq<byte>, after: seq<byte>)
    requires |w| == |w'| <= 4 && w != w'
    ensures Checksum(before + w + after) != Checksum(before + w' + after)
  {
    hide FeedBits, AllBits;
    var s := FeedBits(Ones(), AllBits(before));
    Spliced(before, w, after);
    Spliced(before, w', after);
    if AllBits(w) == AllBits(w') {
      AllBitsInjective(w, w');
    }
    BurstSeen(s, AllBits(w), AllBits(w'), AllBits(after));
    var e, e' := FeedBits(Ones(), AllBits(before + w + after)), FeedBits(Ones(), AllBits(before + w' + after));
    XorKeepsApart(e, e', Ones());
    BitsRoundTrip(Xor(e, Ones()));
    BitsRoundTrip(Xor(e', Ones()));
  }

  lemma {:induction false} Spliced(before: seq<byte>, w: seq<byte>, after: seq<byte>)
    ensures FeedBits(Ones(), AllBits(before + w + after))
              == FeedBits(FeedBits(Ones(), AllBits(before)), AllBits(w) + AllBits(after))
  {
    hide FeedBits, AllBits;
    assert before + w + after == before + (w + after);
    AllBitsAppend(before, w + after);
    AllBitsAppend(w, after);
    FeedBitsAppend(Ones(), AllBits(before), AllBits(w) + AllBits(after));
  }

  // ---- the table ----------------------------------------------------------

  lemma {:induction false} StepsSnoc(n: nat, s: Bits)
    requires |s| == 32
    ensures Steps(n + 1, s) == Step(Steps(n, s))
    decreases n
  {
    hide Step;
    if n > 0 {
      StepsSnoc(n - 1, Step(s));
    }
  }

  lemma {:induction false} NatBitsAbove(v: nat, n: nat, m: nat)
    requires v < Pow2(n) && n <= m
    ensures forall i :: 0 <= i < m ==> NatBits(v, m)[i] == (i < n && NatBits(v, n)[i])
  {
    if n > 0 {
      NatBitsAbove(v / 2, n - 1, m - 1);
    } else if m > 0 {
      NatBitsAbove(v / 2, 0, m - 1);
    }
  }

  lemma {:induction false} ShrAdds(s: Bits, a: nat, b: nat)
    ensures Shr(Shr(s, a), b) == Shr(s, a + b)
  {
  }

  /** The low n bits are clear. */
  ghost predicate LowClear(s: Bits, n: nat) {
    n <= |s| && forall i :: 0 <= i < n ==> !s[i]
  }

  lemma {:induction false} ShrLowClear(s: Bits, n: nat)
    requires LowClear(s, n) && 0 < n
    ensures LowClear(Shr(s, 1), n - 1)
  {
  }

  /** Steps of a word whose low n bits are clear only shift. */
  lemma {:induction false} StepsShift(n: nat, s: Bits)
    requires |s| == 32 && LowClear(s, n)
    ensures Steps(n, s) == Shr(s, n)
  {
    hide Step;
    if n == 0 {
      assert Shr(s, 0) == s;
    } else {
      StepOfEven(s);
      ShrLowClear(s, n);
      ShrAdds(s, 1, n - 1);
      hide Shr, LowClear;
      StepsShift(n - 1, Shr(s, 1));
    }
  }

  /** The table index a byte selects: the low byte of the state, added to the byte. */
  function Index(s: Bits, b: byte): (i: nat)
    requires |s| == 32
    ensures i < 256
  {
    Pow2Of8();
    BitsNat(Xor(s, Pad(NatBits(b, 8)))[..8])
  }

  /** One table lookup feeds the eight bits of a byte. */
  lemma {:induction false} LookupFeedsByte(s: Bits, b: byte)
    requires |s| == 32
    ensures Xor(Steps(8, NatBits(Index(s, b), 32)), Shr(s, 8)) == FeedBits(s, NatBits(b, 8))
  {
    hide Step, Poly, FeedBits, Steps, NatBits;
    var bits := NatBits(b, 8);
    var x := Xor(s, Pad(bits));
    FeedBitsIsSteps(s, bits);
    var low, high := Pad(x[..8]), seq(32, i requires 0 <= i < 32 => i >= 8 && x[i]);
    assert x == Xor(low, high);
    StepsLinear(8, low, high);
    StepsShift(8, high);
    assert Shr(high, 8) == Shr(s, 8);
    assert NatBits(Index(s, b), 32) == low by {
      Pow2Of8();
      BitsRoundTrip(x[..8]);
      NatBitsAbove(Index(s, b), 8, 32);
    }
  }

  method BuildTable() returns (table: array<Bits>)
    ensures fresh(table) && table.Length == 256
    ensures forall i :: 0 <= i < 256 ==> table[i] == Steps(8, NatBits(i, 32))
  {
    hide Poly, NatBits, Steps;
    table := new Bits[256](_ => []);
    for i := 0 to 256
      invariant forall j :: 0 <= j < i ==> table[j] == Steps(8, NatBits(j, 32))
    {
      var crc := NatBits(i, 32);
      NoSteps(crc);
      for bit := 0 to 8
        invariant |crc| == 32 && crc == Steps(bit, NatBits(i, 32))
        invariant forall j :: 0 <= j < i ==> table[j] == Steps(8, NatBits(j, 32))
      {
        StepsSnoc(bit, NatBits(i, 32));
        crc := if crc[0] then Xor(Poly(), Shr(crc, 1)) else Shr(crc, 1);
      }
      table[i] := crc;
    }
  }

  lemma {:induction false} NoSteps(s: Bits)
    requires |s| == 32
    ensures Steps(0, s) == s
  {
  }

  method Crc32(data: seq<byte>) returns (c: nat)
    ensures c == Checksum(data)
  {
    hide Poly, Steps, NatBits, FeedBits, AllBits;
    var table := BuildTable();
    var crc := Ones();
    NothingFed();
    for i := 0 to |data|
      invariant |crc| == 32 && crc == FeedBits(Ones(), AllBits(data[..i]))
      invariant forall j :: 0 <= j < 256 ==> table[j] == Steps(8, NatBits(j, 32))
    {
      LookupFeedsByte(crc, data[i]);
      FedOneMore(data, i);
      crc := Xor(table[Index(crc, data[i])], Shr(crc, 8));
    }
    assert data[..|data|] == data;
    c := BitsNat(Xor(crc, Ones()));
  }

  lemma {:induction false} NothingFed()
    ensures forall data: seq<byte> :: FeedBits(Ones(), AllBits(data[..0])) == Ones()
  {
  }

  lemma {:induction false} FedOneMore(data: seq<byte>, i: nat)
    requires i < |data|
    ensures FeedBits(Ones(), AllBits(data[..i + 1]))
              == FeedBits(FeedBits(Ones(), AllBits(data[..i])), NatBits(data[i], 8))
  {
    assert data[..i + 1] == data[..i] + [data[i]];
    AllBitsAppend(data[..i], [data[i]]);
    assert AllBits([data[i]]) == NatBits(data[i], 8) + AllBits([data[i]][1..]);
    hide FeedBit, NatBits;
    assert AllBits([data[i]]) == NatBits(data[i], 8);
    FeedBitsAppend(Ones(), AllBits(data[..i]), NatBits(data[i], 8));
  }
}
