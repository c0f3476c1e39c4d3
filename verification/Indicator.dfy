/**
 The encrypted match indicator of one batch: bitwise equality, the rotate-and-multiply AND tree,
 the union over operands, the occupancy mask, the `<>` flip and the doubling broadcast.
 */
module Indicator {
  import opened Base
  import opened Seal
  import opened KeyCodec
  import opened Placement
  import opened SlotCodec

  // ---- equality of cyclic windows -----------------------------------------

  /** The w slots of x's row starting at x, cyclically, hold the same values in a and b. */
  ghost predicate WindowAgrees(row: nat, a: seq<nat>, b: seq<nat>, x: int, w: nat)
    requires |a| == 2 * row && |b| == 2 * row && 0 <= x < 2 * row && w <= row
  {
    forall j :: 0 <= j < w ==> a[RotateIndex(row, x, j)] == b[RotateIndex(row, x, j)]
  }

  lemma {:induction false} RotateTwice(row: nat, x: int, j: int, k: int)
    requires 0 <= x < 2 * row && 0 <= j && 0 <= k && j + k < row
    ensures RotateIndex(row, RotateIndex(row, x, j), k) == RotateIndex(row, x, j + k)
  {
  }

  /** A window of twice the width agrees when its two halves do. */
  lemma {:induction false} WindowDoubles(row: nat, a: seq<nat>, b: seq<nat>, x: int, w: nat)
    requires |a| == 2 * row && |b| == 2 * row && 0 <= x < 2 * row && 0 < w && 2 * w <= row
    ensures WindowAgrees(row, a, b, x, 2 * w)
            <==> WindowAgrees(row, a, b, x, w) && WindowAgrees(row, a, b, RotateIndex(row, x, w), w)
  {
    var y := RotateIndex(row, x, w);
    forall j | 0 <= j < w
      ensures RotateIndex(row, y, j) == RotateIndex(row, x, w + j)
    {
      RotateTwice(row, x, w, j);
    }
    if WindowAgrees(row, a, b, x, w) && WindowAgrees(row, a, b, y, w) {
      forall j | 0 <= j < 2 * w
        ensures a[RotateIndex(row, x, j)] == b[RotateIndex(row, x, j)]
      {
        if j >= w {
          assert RotateIndex(row, y, j - w) == RotateIndex(row, x, w + (j - w));
        }
      }
    }
  }

  ghost predicate IsBits(v: seq<nat>) {
    forall x :: 0 <= x < |v| ==> v[x] <= 1
  }

  /** 1 - (q - k)^2 is the equality of two bits, in any modulus. */
  lemma {:induction false} BitEquality(q: nat, k: nat, t: nat)
    requires q <= 1 && k <= 1 && t >= 2
    ensures var d := (q - k) % t;
            ((-(d * d % t)) % t + 1) % t == if q == k then 1 else 0
  {
    if q == k {
      ModSmall(0, t);
      ModSmall(1, t);
    } else {
      DifferenceSquared(q - k, t);
      DivModUnique(-1, t, -1, t - 1);
      DivModUnique(t, t, 1, 0);
    }
  }

  lemma {:induction false} DifferenceSquared(e: int, t: nat)
    requires (e == 1 || e == -1) && t >= 2
    ensures (e % t) * (e % t) % t == 1
  {
    if e == 1 {
      ModSmall(1, t);
    } else {
      DivModUnique(e, t, -1, t - 1);
      assert (t - 1) * (t - 1) == (t - 2) * t + 1;
      DivModUnique((t - 1) * (t - 1), t, t - 2, 1);
    }
  }

  /** The Galois steps the matcher rotates by all have keys. */
  ghost predicate HasSteps(galois: seq<int>, keyBits: nat, row: nat)
    requires keyBits > 0
  {
    forall s :: IsBlockStep(s, 1, keyBits) || IsDoubling(s, keyBits, row) ==> s in galois
  }

  lemma {:induction false} DoublingReached(base: nat, i: nat, limit: nat)
    requires base > 0 && base * Pow2(i) < limit
    ensures IsDoubling(base * Pow2(i), base, limit)
    decreases i
  {
    if i > 0 {
      assert base * Pow2(i) == (2 * base) * Pow2(i - 1);
      DoublingReached(2 * base, i - 1, limit);
      MulAtLeast(Pow2(i), base);
    }
  }

  lemma {:induction false} StepHasKeys(galois: seq<int>, keyBits: nat, row: nat, i: nat)
    requires keyBits > 0 && HasSteps(galois, keyBits, row) && Pow2(i) < keyBits
    ensures Pow2(i) in galois && -(Pow2(i) as int) in galois
  {
    DoublingReached(1, i, keyBits);
    assert IsBlockStep(Pow2(i), 1, keyBits);
    assert IsBlockStep(-(Pow2(i) as int), 1, keyBits);
  }

  /** The source's Log2: the least l with 2^l >= n. */
  method Log2(n: nat) returns (l: nat)
    ensures Pow2(l) >= n && (l == 0 || Pow2(l - 1) < n)
    ensures IsPowerOfTwo(n) ==> Pow2(l) == n && l == Exponent(n)
  {
    l := 0;
    while Pow2(l) < n
      invariant l == 0 || Pow2(l - 1) < n
      decreases n - Pow2(l)
    {
      l := l + 1;
    }
    if IsPowerOfTwo(n) {
      var k := Exponent(n);
      Pow2Monotone(l, k);
      Pow2Monotone(k, l);
      if l > 0 {
        Pow2Monotone(k, l - 1);
      }
    }
  }

  /** Slot x of s says whether the w-slot windows of a and b at x agree. */
  ghost predicate SaysWindow(c: Context, s: Ciphertext, a: seq<nat>, b: seq<nat>, w: nat)
    requires |a| == 2 * c.row && |b| == 2 * c.row && w <= c.row
  {
    && IsCipher(c, s)
    && forall x :: 0 <= x < 2 * c.row ==> s.slots[x] == if WindowAgrees(c.row, a, b, x, w) then 1 else 0
  }

  /** eq = 1 - (operand - key)^2, slot by slot. */
  method SlotEquality(c: Context, operand: Ciphertext, keySlots: Plaintext) returns (s: Ciphertext)
    requires c.Valid() && IsCipher(c, operand) && IsBits(operand.slots)
    requires IsPlain(c, keySlots) && IsBits(keySlots)
    ensures s.depth == operand.depth + 1
    ensures SaysWindow(c, s, operand.slots, keySlots, 1)
  {
    var ones := seq(c.SlotCount(), _ => 1);
    s := SubPlain(c, operand, keySlots);
    s := Multiply(c, s, s);
    s := Negate(c, s);
    s := AddPlain(c, s, ones);
    forall x | 0 <= x < 2 * c.row
      ensures s.slots[x] == if WindowAgrees(c.row, operand.slots, keySlots, x, 1) then 1 else 0
    {
      BitEquality(operand.slots[x], keySlots[x], c.t);
      assert RotateIndex(c.row, x, 0) == x;
    }
  }

  lemma {:induction false} TreeLevel(c: Context, s: Ciphertext, rot: Ciphertext, r: Ciphertext, a: seq<nat>,
                                     b: seq<nat>, w: nat)
    requires c.Valid() && |a| == 2 * c.row && |b| == 2 * c.row && 0 < w && 2 * w <= c.row
    requires SaysWindow(c, s, a, b, w) && IsCipher(c, rot) && IsCipher(c, r)
    requires forall x {:trigger rot.slots[x]} :: 0 <= x < 2 * c.row ==>
               rot.slots[x] == s.slots[RotateIndex(c.row, x, w)]
    requires forall x :: 0 <= x < 2 * c.row ==> r.slots[x] == Residue(s.slots[x] * rot.slots[x], c.t)
    ensures SaysWindow(c, r, a, b, 2 * w)
  {
    forall x | 0 <= x < 2 * c.row
      ensures r.slots[x] == if WindowAgrees(c.row, a, b, x, 2 * w) then 1 else 0
    {
      WindowDoubles(c.row, a, b, x, w);
      AndBits(s.slots[x], rot.slots[x], c.t);
    }
  }

  /** The equality indicator AND-reduced over a window of 2^levels slots. */
  method EqualityIndicator(c: Context, operand: Ciphertext, keySlots: Plaintext, levels: nat, galois: seq<int>)
      returns (s: Ciphertext)
    requires c.Valid() && IsCipher(c, operand) && IsBits(operand.slots)
    requires IsPlain(c, keySlots) && IsBits(keySlots)
    requires Pow2(levels) <= c.row && HasSteps(galois, Pow2(levels), c.row)
    ensures s.depth == operand.depth + 1 + levels
    ensures SaysWindow(c, s, operand.slots, keySlots, Pow2(levels))
  {
    s := SlotEquality(c, operand, keySlots);
    for i := 0 to levels
      invariant Pow2(i) <= c.row && s.depth == operand.depth + 1 + i
      invariant SaysWindow(c, s, operand.slots, keySlots, Pow2(i))
    {
      Pow2Monotone(i, levels);
      StepHasKeys(galois, Pow2(levels), c.row, i);
      var rot := RotateRows(c, s, Pow2(i), galois);
      var and := Multiply(c, s, rot);
      TreeLevel(c, s, rot, and, operand.slots, keySlots, Pow2(i));
      s := and;
    }
  }

  lemma {:induction false} AndBits(a: nat, b: nat, t: nat)
    requires a <= 1 && b <= 1 && t >= 2
    ensures a * b % t == if a == 1 && b == 1 then 1 else 0
  {
  }

  // ---- the key plaintext and the occupancy mask ---------------------------

  /** Blocks of keyBits slots tile a slot row exactly. */
  predicate Tiles(keyBits: nat, row: nat) {
    0 < keyBits <= row && row % keyBits == 0
  }

  /** The table row whose block starts at slot x, or -1. */
  function RowAt(items: seq<Item>, x: int): (r: int)
    ensures r >= -1
  {
    if items == [] then -1
    else
      var last := items[|items| - 1];
      if last.slot == x then last.row else RowAt(items[..|items| - 1], x)
  }

  function BlockStart(keyBits: nat, x: nat): (b: int)
    requires keyBits > 0
    ensures 0 <= b <= x < b + keyBits
  {
    DivMod(x, keyBits);
    x - x % keyBits
  }

  /** What the key plaintext holds at slot x: the bits of the row in x's block, zero in empty blocks. */
  function KeySlot(keyBits: nat, items: seq<Item>, keys: seq<nat>, x: nat): (v: nat)
    requires keyBits > 0
    ensures v <= 1
  {
    var r := RowAt(items, BlockStart(keyBits, x));
    if 0 <= r < |keys| then Bit(keys[r], x % keyBits) else 0
  }

  function MaskSlot(keyBits: nat, items: seq<Item>, x: nat): (v: nat)
    requires keyBits > 0
    ensures v <= 1
  {
    if x % keyBits == 0 && RowAt(items, x) >= 0 then 1 else 0
  }

  /** A slot is inside the block that starts at `at` exactly when its block start is `at`. */
  lemma {:induction false} InBlock(keyBits: nat, at: nat, x: nat)
    requires keyBits > 0 && at % keyBits == 0
    ensures at <= x < at + keyBits <==> BlockStart(keyBits, x) == at
    ensures at <= x < at + keyBits ==> x % keyBits == x - at
  {
    var q := at / keyBits;
    assert at == q * keyBits;
    if at <= x < at + keyBits {
      DivModUnique(x, keyBits, q, x - at);
    }
  }

  /** Writes one row's key bits over its block. */
  method LayBits(keyBits: nat, slots: seq<nat>, at: nat, value: nat) returns (r: seq<nat>)
    requires at + keyBits <= |slots|
    ensures |r| == |slots|
    ensures forall x :: 0 <= x < |slots| ==>
              r[x] == if at <= x < at + keyBits then Bit(value, x - at) else slots[x]
  {
    r := slots;
    for b := 0 to keyBits
      invariant |r| == |slots|
      invariant forall x :: 0 <= x < |slots| ==>
                  r[x] == if at <= x < at + b then Bit(value, x - at) else slots[x]
    {
      r := r[at + b := Bit(value, b)];
    }
  }

  method LayKeys(l: Layout, items: seq<Item>, keys: seq<nat>) returns (keySlots: seq<nat>, startMask: seq<nat>)
    requires l.keyBits > 0 && BatchOk(l, items, |keys|)
    ensures |keySlots| == 2 * l.row && |startMask| == 2 * l.row
    ensures forall x :: 0 <= x < 2 * l.row ==> keySlots[x] == KeySlot(l.keyBits, items, keys, x)
    ensures forall x :: 0 <= x < 2 * l.row ==> startMask[x] == MaskSlot(l.keyBits, items, x)
  {
    keySlots := seq(2 * l.row, _ => 0);
    startMask := seq(2 * l.row, _ => 0);
    for m := 0 to |items|
      invariant |keySlots| == 2 * l.row && |startMask| == 2 * l.row
      invariant forall x :: 0 <= x < 2 * l.row ==> keySlots[x] == KeySlot(l.keyBits, items[..m], keys, x)
      invariant forall x :: 0 <= x < 2 * l.row ==> startMask[x] == MaskSlot(l.keyBits, items[..m], x)
    {
      var at := items[m].slot;
      keySlots := LayBits(l.keyBits, keySlots, at, keys[items[m].row]);
      startMask := startMask[at := 1];
      assert items[..m + 1][..m] == items[..m];
      forall x | 0 <= x < 2 * l.row
        ensures keySlots[x] == KeySlot(l.keyBits, items[..m + 1], keys, x)
      {
        InBlock(l.keyBits, at, x);
      }
    }
    assert items[..|items|] == items;
  }

  // ---- the union over operands --------------------------------------------

  /** A value's bits repeated over every slot: slot x holds bit x mod keyBits. */
  ghost predicate IsTiled(slots: seq<nat>, value: nat, keyBits: nat)
    requires keyBits > 0
  {
    forall x :: 0 <= x < |slots| ==> slots[x] == Bit(value, x % keyBits)
  }

  method EncryptOperand(c: Context, value: nat, keyBits: nat) returns (r: Ciphertext)
    requires c.Valid() && keyBits > 0
    ensures IsCipher(c, r) && IsBits(r.slots) && IsTiled(r.slots, value, keyBits) && r.depth == 0
  {
    var bits := KeyToBits(value, keyBits);
    var slots: seq<nat> := [];
    for i := 0 to c.SlotCount()
      invariant |slots| == i
      invariant forall x :: 0 <= x < i ==> slots[x] == Bit(value, x % keyBits)
    {
      slots := slots + [bits[i % keyBits]];
    }
    r := Encrypt(c, slots);
  }

  /** How many of the operand values equal k. */
  function Multiplicity(values: seq<nat>, k: nat): (n: nat)
    ensures n > 0 <==> k in values
  {
    if values == [] then 0
    else Multiplicity(values[..|values| - 1], k) + (if values[|values| - 1] == k then 1 else 0)
  }

  lemma {:induction false} DistinctMultiplicity(values: seq<nat>, k: nat)
    requires forall i, j :: 0 <= i < j < |values| ==> values[i] != values[j]
    ensures Multiplicity(values, k) == if k in values then 1 else 0
  {
    if values != [] {
      var front, last := values[..|values| - 1], values[|values| - 1];
      DistinctMultiplicity(front, k);
      assert values == front + [last];
      assert last !in front;
    }
  }

  /** At an occupied block start the window comparison is key equality. */
  lemma {:induction false} WindowIsKeyEquality(l: Layout, items: seq<Item>, keys: seq<nat>, keySlots: seq<nat>,
                            operand: seq<nat>, value: nat, x: nat)
    requires Tiles(l.keyBits, l.row)
    requires |keySlots| == 2 * l.row && |operand| == 2 * l.row
    requires forall y :: 0 <= y < 2 * l.row ==> keySlots[y] == KeySlot(l.keyBits, items, keys, y)
    requires IsTiled(operand, value, l.keyBits)
    requires x + l.keyBits <= 2 * l.row && x % l.keyBits == 0 && 0 <= RowAt(items, x) < |keys|
    requires value < Pow2(l.keyBits) && keys[RowAt(items, x)] < Pow2(l.keyBits)
    ensures WindowAgrees(l.row, operand, keySlots, x, l.keyBits) <==> keys[RowAt(items, x)] == value
  {
    var key := keys[RowAt(items, x)];
    BitsDetermineKey(key, value, l.keyBits);
    forall j | 0 <= j < l.keyBits
      ensures RotateIndex(l.row, x, j) == x + j
      ensures operand[x + j] == Bit(value, j) && keySlots[x + j] == Bit(key, j)
    {
      BlockStaysInSide(l.row, l.keyBits, x);
      InBlock(l.keyBits, x, x + j);
    }
    if WindowAgrees(l.row, operand, keySlots, x, l.keyBits) {
      forall j | 0 <= j < l.keyBits
        ensures Bit(key, j) == Bit(value, j)
      {
        assert operand[RotateIndex(l.row, x, j)] == keySlots[RotateIndex(l.row, x, j)];
      }
    }
  }

  /** An aligned block never straddles the two slot rows. */
  lemma {:induction false} BlockStaysInSide(row: nat, keyBits: nat, x: nat)
    requires keyBits > 0 && row % keyBits == 0 && x % keyBits == 0
    ensures x < row ==> x + keyBits <= row
  {
    var a, b := x / keyBits, row / keyBits;
    assert x == a * keyBits && row == b * keyBits;
    if x < row {
      if a >= b {
        MulMonotone(b, a, keyBits);
      }
      MulGap(a, b, keyBits);
    }
  }

  /** How many of the first n operands agree with the key plaintext on the w-slot window at x. */
  ghost function AgreeCount(row: nat, operands: seq<Ciphertext>, keySlots: seq<nat>, x: int, w: nat, n: nat): (k: nat)
    requires n <= |operands| && |keySlots| == 2 * row && 0 <= x < 2 * row && w <= row
    requires forall i :: 0 <= i < |operands| ==> |operands[i].slots| == 2 * row
  {
    if n == 0 then 0
    else AgreeCount(row, operands, keySlots, x, w, n - 1)
         + (if WindowAgrees(row, operands[n - 1].slots, keySlots, x, w) then 1 else 0)
  }

  ghost predicate AreOperands(c: Context, operands: seq<Ciphertext>) {
    forall i :: 0 <= i < |operands| ==>
      IsCipher(c, operands[i]) && IsBits(operands[i].slots) && operands[i].depth == 0
  }

  /** The per-operand indicators summed: no ciphertext multiplication is spent on the union. */
  method UnionIndicator(c: Context, operands: seq<Ciphertext>, keySlots: Plaintext, levels: nat, galois: seq<int>)
      returns (sel: Ciphertext)
    requires c.Valid() && |operands| > 0 && AreOperands(c, operands)
    requires IsPlain(c, keySlots) && IsBits(keySlots)
    requires Pow2(levels) <= c.row && HasSteps(galois, Pow2(levels), c.row)
    ensures IsCipher(c, sel) && sel.depth == 1 + levels
    ensures forall x :: 0 <= x < 2 * c.row ==>
              sel.slots[x] == Residue(AgreeCount(c.row, operands, keySlots, x, Pow2(levels), |operands|), c.t)
  {
    sel := EqualityIndicator(c, operands[0], keySlots, levels, galois);
    forall x | 0 <= x < 2 * c.row
      ensures sel.slots[x] == Residue(AgreeCount(c.row, operands, keySlots, x, Pow2(levels), 1), c.t)
    {
      assert AgreeCount(c.row, operands, keySlots, x, Pow2(levels), 0) == 0;
      ModSmall(sel.slots[x], c.t);
    }
    for i := 1 to |operands|
      invariant IsCipher(c, sel) && sel.depth == 1 + levels
      invariant forall x :: 0 <= x < 2 * c.row ==>
                  sel.slots[x] == Residue(AgreeCount(c.row, operands, keySlots, x, Pow2(levels), i), c.t)
    {
      var eq := EqualityIndicator(c, operands[i], keySlots, levels, galois);
      ghost var before := sel;
      sel := Add(c, sel, eq);
      forall x | 0 <= x < 2 * c.row
        ensures sel.slots[x] == Residue(AgreeCount(c.row, operands, keySlots, x, Pow2(levels), i + 1), c.t)
      {
        ModAdd(AgreeCount(c.row, operands, keySlots, x, Pow2(levels), i), eq.slots[x], c.t);
      }
    }
  }

  lemma {:induction false} AgreeCountIsMultiplicity(
      l: Layout, items: seq<Item>, keys: seq<nat>, keySlots: seq<nat>,
      operands: seq<Ciphertext>, values: seq<nat>, x: nat, n: nat)
    requires Tiles(l.keyBits, l.row)
    requires |keySlots| == 2 * l.row
    requires forall y :: 0 <= y < 2 * l.row ==> keySlots[y] == KeySlot(l.keyBits, items, keys, y)
    requires n <= |operands| == |values|
    requires forall i :: 0 <= i < |operands| ==> |operands[i].slots| == 2 * l.row
    requires forall i :: 0 <= i < |operands| ==> IsTiled(operands[i].slots, values[i], l.keyBits)
    requires forall i :: 0 <= i < |values| ==> values[i] < Pow2(l.keyBits)
    requires x + l.keyBits <= 2 * l.row && x % l.keyBits == 0 && 0 <= RowAt(items, x) < |keys|
    requires keys[RowAt(items, x)] < Pow2(l.keyBits)
    ensures AgreeCount(l.row, operands, keySlots, x, l.keyBits, n) == Multiplicity(values[..n], keys[RowAt(items, x)])
  {
    hide KeySlot, WindowAgrees, IsTiled, RowAt;
    if n > 0 {
      AgreeCountIsMultiplicity(l, items, keys, keySlots, operands, values, x, n - 1);
      WindowIsKeyEquality(l, items, keys, keySlots, operands[n - 1].slots, values[n - 1], x);
      assert values[..n][..n - 1] == values[..n - 1];
    }
  }

  // ---- mask and flip ------------------------------------------------------

  datatype Op = Eq | Ne | OtherOp

  /** A row's indicator when its key equals n of the operands: n for '=', 1 - n for '<>'. */
  function Weight(op: Op, n: nat, t: nat): (w: nat)
    requires t > 0
    ensures w < t
  {
    if op == Ne then (1 - n) % t else n % t
  }

  lemma {:induction false} MaskedValue(v: nat, m: nat, t: nat)
    requires v < t && m <= 1
    ensures v * m % t == if m == 0 then 0 else v
  {
    ModSmall(v * m, t);
  }

  lemma {:induction false} FlippedValue(v: nat, m: nat, t: nat)
    requires v < t && m <= 1
    ensures ((-(v * m % t)) % t + m) % t == if m == 0 then 0 else Weight(Ne, v, t)
  {
    MaskedValue(v, m, t);
    ModAdd(-(v * m % t), m, t);
    ModSmall(0, t);
  }

  /** Keep the indicator at occupied block starts, and for '<>' invert it there. */
  method MaskAndFlip(c: Context, sel: Ciphertext, startMask: Plaintext, op: Op) returns (r: Ciphertext)
    requires c.Valid() && IsCipher(c, sel) && IsPlain(c, startMask) && IsBits(startMask)
    requires exists x :: 0 <= x < |startMask| && startMask[x] != 0
    ensures IsCipher(c, r) && r.depth == sel.depth
    ensures forall x :: 0 <= x < 2 * c.row ==>
              r.slots[x] == if startMask[x] == 0 then 0 else Weight(op, sel.slots[x], c.t)
  {
    r := MultiplyPlain(c, sel, startMask);
    ghost var masked := r;
    if op == Ne {
      r := Negate(c, r);
      r := AddPlain(c, r, startMask);
    }
    forall x | 0 <= x < 2 * c.row
      ensures r.slots[x] == if startMask[x] == 0 then 0 else Weight(op, sel.slots[x], c.t)
    {
      assert masked.slots[x] == Residue(sel.slots[x] * startMask[x], c.t);
      MaskedValue(sel.slots[x], startMask[x], c.t);
      FlippedValue(sel.slots[x], startMask[x], c.t);
      ModSmall(sel.slots[x], c.t);
    }
  }

  lemma {:induction false} WeightOfResidue(op: Op, n: nat, t: nat)
    requires t > 0
    ensures Weight(op, n % t, t) == Weight(op, n, t)
  {
    var q := n / t;
    assert n == q * t + n % t;
    ModShift(1 - n, q, t);
    assert 1 - n + q * t == 1 - n % t;
    RemainderSmall(n, t);
  }

  lemma {:induction false} RemainderSmall(n: nat, t: nat)
    requires t > 0
    ensures n % t % t == n % t
  {
    ModSmall(n % t, t);
  }

  // ---- broadcast ----------------------------------------------------------

  /** The block of a slot of the second row starts in the second row. */
  lemma {:induction false} StartInSide(row: nat, keyBits: nat, x: nat)
    requires keyBits > 0 && row % keyBits == 0 && x >= row
    ensures BlockStart(keyBits, x) >= row
  {
    DivMod(x, keyBits);
    DivMod(row, keyBits);
    var q, m := Div(x, keyBits), Div(row, keyBits);
    if q < m {
      MulGap(q, m, keyBits);
    } else {
      MulMonotone(m, q, keyBits);
    }
  }

  /** Moving w to the left inside a block keeps the block and lowers the offset by w. */
  lemma {:induction false} StepInside(keyBits: nat, x: nat, w: nat)
    requires keyBits > 0 && w <= x % keyBits
    ensures x - w >= 0
    ensures (x - w) % keyBits == x % keyBits - w && BlockStart(keyBits, x - w) == BlockStart(keyBits, x)
  {
    var at := BlockStart(keyBits, x);
    StartOfStart(keyBits, x);
    InBlock(keyBits, at, x - w);
  }

  /** Moving w to the left over a block boundary lands at an offset of keyBits - w or more. */
  lemma {:induction false} StepOutside(keyBits: nat, x: int, w: nat, k: nat)
    requires keyBits > 0 && x >= 0 && x % keyBits < w <= keyBits
    ensures (x - w + k * keyBits) % keyBits == x % keyBits - w + keyBits
  {
    var q := x / keyBits;
    assert x == q * keyBits + x % keyBits;
    assert (q - 1 + k) * keyBits == q * keyBits - keyBits + k * keyBits;
    DivModUnique(x - w + k * keyBits, keyBits, q - 1 + k, x % keyBits - w + keyBits);
  }

  /** Rotating right by w stays in the block past offset w, and otherwise enters the block before. */
  lemma {:induction false} RotateBack(row: nat, keyBits: nat, x: nat, w: nat)
    requires Tiles(keyBits, row)
    requires x < 2 * row && 0 < w && 2 * w <= keyBits
    ensures var y := RotateIndex(row, x, -(w as int));
            if x % keyBits >= w then y % keyBits == x % keyBits - w && BlockStart(keyBits, y) == BlockStart(keyBits, x)
            else y % keyBits >= w
  {
    if x % keyBits >= w {
      StepInside(keyBits, x, w);
      if x >= row {
        StartInSide(row, keyBits, x);
      }
    } else {
      var m := Div(row, keyBits);
      DivMod(row, keyBits);
      StepOutside(keyBits, x, w, 0);
      StepOutside(keyBits, x, w, m);
    }
  }

  /** The first w slots of every block hold the block start's value of m; the rest hold zero. */
  ghost predicate Spread(c: Context, keyBits: nat, s: Ciphertext, m: seq<nat>, w: nat)
    requires keyBits > 0
  {
    && IsCipher(c, s) && |m| == 2 * c.row
    && forall x :: 0 <= x < 2 * c.row ==>
         s.slots[x] == if x % keyBits < w then m[BlockStart(keyBits, x)] else 0
  }

  lemma {:induction false} SpreadDoublesAt(c: Context, keyBits: nat, s: Ciphertext, m: seq<nat>, w: nat, x: nat)
    requires c.Valid() && Tiles(keyBits, c.row)
    requires 0 < w && 2 * w <= keyBits && Spread(c, keyBits, s, m, w) && x < 2 * c.row
    ensures Residue(s.slots[x] + s.slots[RotateIndex(c.row, x, -(w as int))], c.t)
            == if x % keyBits < 2 * w then m[BlockStart(keyBits, x)] else 0
  {
    RotateBack(c.row, keyBits, x, w);
    hide BlockStart, RotateIndex;
    ModSmall(s.slots[x], c.t);
    ModSmall(s.slots[RotateIndex(c.row, x, -(w as int))], c.t);
  }

  /** r is s added to itself rotated by -w. */
  ghost predicate AddedToRotated(c: Context, s: Ciphertext, r: Ciphertext, w: nat) {
    && c.Valid() && IsCipher(c, s) && IsCipher(c, r) && 0 < w < c.row
    && forall x {:trigger r.slots[x]} :: 0 <= x < 2 * c.row ==>
         r.slots[x] == Residue(s.slots[x] + s.slots[RotateIndex(c.row, x, -(w as int))], c.t)
  }

  method AddRotated(c: Context, s: Ciphertext, w: nat, galois: seq<int>) returns (r: Ciphertext)
    requires c.Valid() && IsCipher(c, s) && 0 < w < c.row && -(w as int) in galois
    ensures AddedToRotated(c, s, r, w) && r.depth == s.depth
  {
    hide RotateIndex, Residue;
    var rot := RotateRows(c, s, -(w as int), galois);
    r := Add(c, s, rot);
  }

  lemma {:induction false} SpreadDoubles(c: Context, keyBits: nat, s: Ciphertext, r: Ciphertext, m: seq<nat>, w: nat)
    requires c.Valid() && Tiles(keyBits, c.row)
    requires 0 < w && 2 * w <= keyBits && Spread(c, keyBits, s, m, w) && AddedToRotated(c, s, r, w)
    ensures Spread(c, keyBits, r, m, 2 * w)
  {
    hide BlockStart, RotateIndex;
    forall x | 0 <= x < 2 * c.row
      ensures r.slots[x] == if x % keyBits < 2 * w then m[BlockStart(keyBits, x)] else 0
    {
      SpreadDoublesAt(c, keyBits, s, m, w, x);
    }
  }

  /** Zero everywhere but at block starts. */
  ghost predicate OnlyAtStarts(keyBits: nat, m: seq<nat>)
    requires keyBits > 0
  {
    forall x :: 0 <= x < |m| && x % keyBits != 0 ==> m[x] == 0
  }

  lemma {:induction false} SpreadBegins(c: Context, keyBits: nat, s: Ciphertext)
    requires keyBits > 0 && IsCipher(c, s) && OnlyAtStarts(keyBits, s.slots)
    ensures Spread(c, keyBits, s, s.slots, 1)
  {
  }

  lemma {:induction false} SpreadEnds(c: Context, keyBits: nat, s: Ciphertext, m: seq<nat>)
    requires keyBits > 0 && Spread(c, keyBits, s, m, keyBits)
    ensures IsCipher(c, s)
    ensures forall x :: 0 <= x < 2 * c.row ==> s.slots[x] == m[BlockStart(keyBits, x)]
  {
  }

  /** One level: the values spread over 2^i slots of their block are added to themselves, rotated by 2^i. */
  method BroadcastLevel(c: Context, sel: Ciphertext, keyBits: nat, levels: nat, i: nat, galois: seq<int>,
                        ghost starts: seq<nat>)
      returns (sum: Ciphertext)
    requires c.Valid() && IsCipher(c, sel) && i < levels && |starts| == 2 * c.row
    requires Pow2(levels) == keyBits && Tiles(keyBits, c.row) && HasSteps(galois, keyBits, c.row)
    requires Spread(c, keyBits, sel, starts, Pow2(i))
    ensures IsCipher(c, sum) && sum.depth == sel.depth && Spread(c, keyBits, sum, starts, Pow2(i + 1))
  {
    var w := Pow2(i);
    assert Pow2(i + 1) == 2 * w && 0 < w;
    Pow2Monotone(i + 1, levels);
    assert 2 * w <= keyBits <= c.row;
    hide Spread, HasSteps, Tiles, Pow2;
    StepHasKeys(galois, keyBits, c.row, i);
    sum := AddRotated(c, sel, w, galois);
    SpreadDoubles(c, keyBits, sel, sum, starts, w);
  }

  /** The doubling prefix sum: every slot of a block ends with its block start's value, and no other's. */
  method Broadcast(c: Context, masked: Ciphertext, keyBits: nat, levels: nat, galois: seq<int>)
      returns (sel: Ciphertext)
    requires c.Valid() && IsCipher(c, masked)
    requires Pow2(levels) == keyBits && Tiles(keyBits, c.row) && HasSteps(galois, keyBits, c.row)
    requires OnlyAtStarts(keyBits, masked.slots)
    ensures IsCipher(c, sel) && sel.depth == masked.depth
    ensures forall x :: 0 <= x < 2 * c.row ==> sel.slots[x] == masked.slots[BlockStart(keyBits, x)]
  {
    hide Spread, BlockStart, OnlyAtStarts, HasSteps, RotateIndex, Residue, Tiles;
    SpreadBegins(c, keyBits, masked);
    sel := masked;
    for i := 0 to levels
      invariant IsCipher(c, sel) && sel.depth == masked.depth
      invariant Spread(c, keyBits, sel, masked.slots, Pow2(i))
    {
      sel := BroadcastLevel(c, sel, keyBits, levels, i, galois, masked.slots);
    }
    SpreadEnds(c, keyBits, sel, masked.slots);
  }

  // ---- the indicator of a batch -------------------------------------------

  /** The table key values the operands were encrypted from, each inside the key universe. */
  ghost predicate EncryptsValues(operands: seq<Ciphertext>, values: seq<nat>, keyBits: nat)
    requires keyBits > 0
  {
    && |operands| == |values| > 0
    && forall i :: 0 <= i < |values| ==> IsTiled(operands[i].slots, values[i], keyBits) && values[i] < Pow2(keyBits)
  }

  /** The match indicator of slot x: that of the row whose block covers x, and 0 in empty blocks. */
  ghost function IndicatorSlot(t: nat, keyBits: nat, items: seq<Item>, keys: seq<nat>, op: Op, values: seq<nat>,
                               x: nat): (v: nat)
    requires t > 0 && keyBits > 0
  {
    var r := RowAt(items, BlockStart(keyBits, x));
    if 0 <= r < |keys| then Weight(op, Multiplicity(values, keys[r]), t) else 0
  }

  lemma {:induction false} RowAtIsItem(items: seq<Item>, x: int)
    ensures RowAt(items, x) >= 0 ==>
              exists i :: 0 <= i < |items| && items[i].slot == x && items[i].row == RowAt(items, x)
    ensures RowAt(items, x) < 0 ==> forall i :: 0 <= i < |items| ==> items[i].slot != x
  {
    if items != [] {
      var k := |items| - 1;
      RowAtIsItem(items[..k], x);
      if items[k].slot == x {
        assert items[k].row == RowAt(items, x);
      } else if RowAt(items, x) >= 0 {
        var i :| 0 <= i < |items[..k]| && items[..k][i].slot == x && items[..k][i].row == RowAt(items, x);
        assert items[i].slot == x && items[i].row == RowAt(items, x);
      }
    }
  }

  lemma {:induction false} StartOfStart(keyBits: nat, x: nat)
    requires keyBits > 0
    ensures BlockStart(keyBits, x) % keyBits == 0
    ensures BlockStart(keyBits, BlockStart(keyBits, x)) == BlockStart(keyBits, x)
  {
    var q := x / keyBits;
    assert BlockStart(keyBits, x) == q * keyBits;
    ExactQuotient(q, keyBits);
  }

  lemma {:induction false} MaskNonZero(l: Layout, items: seq<Item>, total: nat, startMask: seq<nat>)
    requires l.keyBits > 0 && BatchOk(l, items, total) && |items| > 0
    requires |startMask| == 2 * l.row
    requires forall x :: 0 <= x < 2 * l.row ==> startMask[x] == MaskSlot(l.keyBits, items, x)
    ensures exists x :: 0 <= x < |startMask| && startMask[x] != 0
  {
    var last := items[|items| - 1];
    assert IsBlockStart(l, last.slot);
    assert startMask[last.slot] == MaskSlot(l.keyBits, items, last.slot) == 1;
  }

  lemma {:induction false} OccupiedStart(c: Context, l: Layout, items: seq<Item>, keys: seq<nat>, keySlots: seq<nat>,
                                         op: Op,
                      operands: seq<Ciphertext>, values: seq<nat>, union: Ciphertext, x: nat)
    requires c.Valid() && l.row == c.row && Tiles(l.keyBits, l.row)
    requires BatchOk(l, items, |keys|) && x < 2 * l.row && MaskSlot(l.keyBits, items, x) != 0
    requires forall r :: 0 <= r < |keys| ==> keys[r] < Pow2(l.keyBits)
    requires AreOperands(c, operands) && EncryptsValues(operands, values, l.keyBits)
    requires |keySlots| == 2 * l.row && |union.slots| == 2 * l.row
    requires forall y :: 0 <= y < 2 * l.row ==> keySlots[y] == KeySlot(l.keyBits, items, keys, y)
    requires union.slots[x] == Residue(AgreeCount(c.row, operands, keySlots, x, l.keyBits, |operands|), c.t)
    ensures Weight(op, union.slots[x], c.t) == IndicatorSlot(c.t, l.keyBits, items, keys, op, values, x)
  {
    hide KeySlot, WindowAgrees, IsTiled, RowAt, Multiplicity, AgreeCount, Tiles, Pow2, IsBits;
    RowAtIsItem(items, x);
    var i :| 0 <= i < |items| && items[i].slot == x && items[i].row == RowAt(items, x);
    assert IsBlockStart(l, items[i].slot);
    AgreeCountIsMultiplicity(l, items, keys, keySlots, operands, values, x, |operands|);
    assert values[..|operands|] == values;
    WeightOfResidue(op, Multiplicity(values, keys[RowAt(items, x)]), c.t);
  }

  method MatchIndicator(c: Context, l: Layout, items: seq<Item>, keys: seq<nat>, op: Op,
                        operands: seq<Ciphertext>, ghost values: seq<nat>, levels: nat, galois: seq<int>)
      returns (sel: Ciphertext)
    requires c.Valid() && l.Valid() && l.row == c.row && Pow2(levels) == l.keyBits
    requires BatchOk(l, items, |keys|) && |items| > 0
    requires forall r :: 0 <= r < |keys| ==> keys[r] < Pow2(l.keyBits)
    requires AreOperands(c, operands) && EncryptsValues(operands, values, l.keyBits)
    requires HasSteps(galois, l.keyBits, l.row)
    ensures IsCipher(c, sel) && sel.depth == 1 + levels
    ensures forall x :: 0 <= x < 2 * c.row ==>
              sel.slots[x] == IndicatorSlot(c.t, l.keyBits, items, keys, op, values, x)
  {
    BaseAligned(l, 0, 0);
    var keySlots, startMask := LayKeys(l, items, keys);
    MaskNonZero(l, items, |keys|, startMask);
    var union := UnionIndicator(c, operands, keySlots, levels, galois);
    var masked := MaskAndFlip(c, union, startMask, op);
    forall x | 0 <= x < 2 * c.row
      ensures masked.slots[x] == if MaskSlot(l.keyBits, items, x) == 0 then 0
                                 else IndicatorSlot(c.t, l.keyBits, items, keys, op, values, x)
    {
      if MaskSlot(l.keyBits, items, x) != 0 {
        OccupiedStart(c, l, items, keys, keySlots, op, operands, values, union, x);
      }
    }
    sel := Broadcast(c, masked, l.keyBits, levels, galois);
    forall x | 0 <= x < 2 * c.row
      ensures sel.slots[x] == IndicatorSlot(c.t, l.keyBits, items, keys, op, values, x)
    {
      StartOfStart(l.keyBits, x);
    }
  }
}
