/**
 The part of the BFV scheme the matcher relies on. A ciphertext is the vector of residues its
 slots decrypt to, together with the number of ciphertext multiplications spent on it. The
 slots form two rows that rotate independently. Noise, relinearization and modulus switching
 do not change the decrypted slots and are not modelled.
 */
module Seal {
  import opened Base

  /** slot count is 2 * row; t is the plaintext modulus. */
  datatype Context = Context(row: nat, t: nat) {
    predicate Valid() {
      row > 0 && t >= 2
    }

    function SlotCount(): (n: nat) {
      2 * row
    }
  }

  type Plaintext = seq<nat>

  datatype Ciphertext = Ciphertext(slots: seq<nat>, depth: nat)

  predicate IsPlain(c: Context, p: Plaintext) {
    |p| == c.SlotCount() && forall x :: 0 <= x < |p| ==> p[x] < c.t
  }

  predicate IsCipher(c: Context, a: Ciphertext) {
    IsPlain(c, a.slots)
  }

  /** The slot that rotate_rows by k brings to slot x: k to the right, inside x's own row. */
  function RotateIndex(row: nat, x: int, k: int): (y: int)
    requires 0 <= x < 2 * row && 0 < row + k && k < row
    ensures 0 <= y < 2 * row && (y < row <==> x < row)
  {
    var low := if x < row then 0 else row;
    var y := x + k;
    if y >= low + row then y - row else if y < low then y + row else y
  }

  function Encrypt(c: Context, p: Plaintext): (r: Ciphertext)
    requires IsPlain(c, p)
    ensures IsCipher(c, r) && r.slots == p && r.depth == 0
  {
    Ciphertext(p, 0)
  }

  function Add(c: Context, a: Ciphertext, b: Ciphertext): (r: Ciphertext)
    requires c.Valid() && IsCipher(c, a) && IsCipher(c, b)
    ensures IsCipher(c, r) && r.depth == Max(a.depth, b.depth)
    ensures forall x {:trigger r.slots[x]} :: 0 <= x < c.SlotCount() ==>
              r.slots[x] == Residue(a.slots[x] + b.slots[x], c.t)
  {
    Ciphertext(seq(c.SlotCount(), x requires 0 <= x < c.SlotCount() => Residue(a.slots[x] + b.slots[x], c.t)),
               Max(a.depth, b.depth))
  }

  function AddPlain(c: Context, a: Ciphertext, p: Plaintext): (r: Ciphertext)
    requires c.Valid() && IsCipher(c, a) && IsPlain(c, p)
    ensures IsCipher(c, r) && r.depth == a.depth
    ensures forall x {:trigger r.slots[x]} :: 0 <= x < c.SlotCount() ==> r.slots[x] == Residue(a.slots[x] + p[x], c.t)
  {
    Ciphertext(seq(c.SlotCount(), x requires 0 <= x < c.SlotCount() => Residue(a.slots[x] + p[x], c.t)), a.depth)
  }

  function SubPlain(c: Context, a: Ciphertext, p: Plaintext): (r: Ciphertext)
    requires c.Valid() && IsCipher(c, a) && IsPlain(c, p)
    ensures IsCipher(c, r) && r.depth == a.depth
    ensures forall x {:trigger r.slots[x]} :: 0 <= x < c.SlotCount() ==>
              r.slots[x] == Residue(a.slots[x] as int - p[x] as int, c.t)
  {
    Ciphertext(seq(c.SlotCount(), x requires 0 <= x < c.SlotCount() => Residue(a.slots[x] as int - p[x] as int, c.t)),
        a.depth)
  }

  function Negate(c: Context, a: Ciphertext): (r: Ciphertext)
    requires c.Valid() && IsCipher(c, a)
    ensures IsCipher(c, r) && r.depth == a.depth
    ensures forall x {:trigger r.slots[x]} :: 0 <= x < c.SlotCount() ==>
              r.slots[x] == Residue(-(a.slots[x] as int), c.t)
  {
    Ciphertext(seq(c.SlotCount(), x requires 0 <= x < c.SlotCount() => Residue(-(a.slots[x] as int), c.t)), a.depth)
  }

  function Multiply(c: Context, a: Ciphertext, b: Ciphertext): (r: Ciphertext)
    requires c.Valid() && IsCipher(c, a) && IsCipher(c, b)
    ensures IsCipher(c, r) && r.depth == Max(a.depth, b.depth) + 1
    ensures forall x {:trigger r.slots[x]} :: 0 <= x < c.SlotCount() ==>
              r.slots[x] == Residue(a.slots[x] * b.slots[x], c.t)
  {
    Ciphertext(seq(c.SlotCount(), x requires 0 <= x < c.SlotCount() => Residue(a.slots[x] * b.slots[x], c.t)),
               Max(a.depth, b.depth) + 1)
  }

  /** An all-zero plaintext would make the product transparent, which SEAL rejects. */
  function MultiplyPlain(c: Context, a: Ciphertext, p: Plaintext): (r: Ciphertext)
    requires c.Valid() && IsCipher(c, a) && IsPlain(c, p)
    requires exists x :: 0 <= x < |p| && p[x] != 0
    ensures IsCipher(c, r) && r.depth == a.depth
    ensures forall x {:trigger r.slots[x]} :: 0 <= x < c.SlotCount() ==> r.slots[x] == Residue(a.slots[x] * p[x], c.t)
  {
    Ciphertext(seq(c.SlotCount(), x requires 0 <= x < c.SlotCount() => Residue(a.slots[x] * p[x], c.t)), a.depth)
  }

  /** A rotation needs the Galois key of its step. */
  function RotateRows(c: Context, a: Ciphertext, k: int, galois: seq<int>): (r: Ciphertext)
    requires c.Valid() && IsCipher(c, a)
    requires 0 < c.row + k && k < c.row && k in galois
    ensures IsCipher(c, r) && r.depth == a.depth
    ensures forall x {:trigger r.slots[x]} :: 0 <= x < c.SlotCount() ==> r.slots[x] == a.slots[RotateIndex(c.row, x, k)]
  {
    Ciphertext(seq(c.SlotCount(), x requires 0 <= x < c.SlotCount() => a.slots[RotateIndex(c.row, x, k)]), a.depth)
  }
}
