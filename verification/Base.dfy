/** Vocabulary shared by every component: results, bytes, powers of two and finite sums. */
module Base {

  /** The status codes the modelled code returns. */
  datatype Error =
    | InvalidArgument
    | OutOfRange
    | NotFound
    | AlreadyExists
    | FailedPrecondition
    | DataLoss
    | Unimplemented
    | Internal

  datatype Option<+T> = None | Some(value: T)

  datatype Result<+T> = Ok(value: T) | Err(error: Error)

  type byte = b: nat | b < 256

  function Min(a: int, b: int): (m: int)
    ensures m <= a && m <= b && (m == a || m == b)
  {
    if a < b then a else b
  }

  function Max(a: int, b: int): (m: int)
    ensures m >= a && m >= b && (m == a || m == b)
  {
    if a < b then b else a
  }

  // ---- powers -------------------------------------------------------------

  function Pow2(n: nat): (p: nat)
    ensures p > 0
  {
    if n == 0 then 1 else 2 * Pow2(n - 1)
  }

  function Pow256(n: nat): (p: nat)
    ensures p > 0
  {
    if n == 0 then 1 else 256 * Pow256(n - 1)
  }

  predicate IsPowerOfTwo(n: nat) {
    n == 1 || (n > 1 && n % 2 == 0 && IsPowerOfTwo(n / 2))
  }

  ghost function Exponent(n: nat): (k: nat)
    requires IsPowerOfTwo(n)
    ensures Pow2(k) == n
  {
    if n == 1 then 0 else 1 + Exponent(n / 2)
  }

  lemma {:induction false} Pow2IsPowerOfTwo(k: nat)
    ensures IsPowerOfTwo(Pow2(k))
  {
    if k > 0 {
      Pow2IsPowerOfTwo(k - 1);
    }
  }

  lemma {:induction false} Pow2Add(a: nat, b: nat)
    ensures Pow2(a + b) == Pow2(a) * Pow2(b)
  {
    if b > 0 {
      Pow2Add(a, b - 1);
      calc {
        Pow2(a + b);
        2 * Pow2(a + (b - 1));
        2 * (Pow2(a) * Pow2(b - 1));
        Pow2(a) * (2 * Pow2(b - 1));
      }
    }
  }

  lemma {:induction false} Pow2Monotone(a: nat, b: nat)
    ensures a <= b ==> Pow2(a) <= Pow2(b)
    ensures a < b ==> 2 * Pow2(a) <= Pow2(b)
    decreases b
  {
    if a < b {
      Pow2Monotone(a, b - 1);
    }
  }

  /** Among powers of two, order is divisibility. */
  lemma {:induction false} PowerOfTwoDivides(a: nat, b: nat)
    requires IsPowerOfTwo(a) && IsPowerOfTwo(b) && a <= b
    ensures b % a == 0 && IsPowerOfTwo(b / a) && b / a * a == b
  {
    var x, y := Exponent(a), Exponent(b);
    if x > y {
      Pow2Monotone(y, x);
    }
    Pow2Add(y - x, x);
    Pow2IsPowerOfTwo(y - x);
    ExactQuotient(Pow2(y - x), a);
  }

  lemma {:induction false} Pow2Of32()
    ensures Pow2(32) == 0x1_0000_0000
  {
    assert Pow2(4) == 16;
    Pow2Add(4, 4);
    Pow2Add(8, 8);
    Pow2Add(16, 16);
  }

  // ---- division and remainder ---------------------------------------------

  function Div(n: nat, d: nat): (q: nat)
    requires d > 0
  {
    n / d
  }

  function Mod(n: nat, d: nat): (r: nat)
    requires d > 0
    ensures r < d
  {
    n % d
  }

  /** The canonical representative of x modulo t. */
  function Residue(x: int, t: nat): (r: nat)
    requires t > 0
    ensures r < t
  {
    x % t
  }

  lemma {:induction false} DivMod(n: nat, d: nat)
    requires d > 0
    ensures n == Div(n, d) * d + Mod(n, d)
  {
  }

  lemma {:induction false} ExactQuotient(q: nat, d: nat)
    requires d > 0
    ensures q * d / d == q && (q * d) % d == 0
  {
    DivModUnique(q * d, d, q, 0);
  }

  /** Euclidean quotient and remainder are determined by their defining equation. */
  lemma {:induction false} DivModUnique(n: int, d: int, q: int, r: int)
    requires 0 <= r < d && n == q * d + r
    ensures n / d == q && n % d == r
  {
    var q', r' := n / d, n % d;
    assert n == q' * d + r';
    assert (q - q') * d == r' - r;
    assert (q' - q) * d == r - r';
    if q > q' {
      MulAtLeast(q - q', d);
    } else if q < q' {
      MulAtLeast(q' - q, d);
    }
  }

  lemma {:induction false} MulAtLeast(k: int, d: int)
    requires k >= 1 && d >= 0
    ensures k * d >= d
  {
    assert k * d == (k - 1) * d + d;
    MulNonNegative(k - 1, d);
  }

  lemma {:induction false} MulNonNegative(a: int, b: int)
    requires a >= 0 && b >= 0
    ensures a * b >= 0
  {
  }

  lemma {:induction false} MulMonotone(a: int, b: int, d: int)
    requires a <= b && d >= 0
    ensures a * d <= b * d
  {
    MulNonNegative(b - a, d);
    assert (b - a) * d == b * d - a * d;
  }

  lemma {:induction false} MulGap(a: int, b: int, d: int)
    requires a < b && d >= 0
    ensures a * d + d <= b * d
  {
    MulMonotone(a + 1, b, d);
    assert (a + 1) * d == a * d + d;
  }

  lemma {:induction false} ModAdd(a: int, b: int, t: int)
    requires t > 0
    ensures (a % t + b % t) % t == (a + b) % t
    ensures (a % t + b) % t == (a + b) % t
  {
    ModAddLeft(a, b, t);
    ModAddLeft(b, a % t, t);
    assert b % t + a % t == a % t + b % t;
    assert b + a % t == a % t + b;
  }

  lemma {:induction false} ModAddLeft(a: int, b: int, t: int)
    requires t > 0
    ensures (a % t + b) % t == (a + b) % t
  {
    var q := a / t;
    assert a == q * t + a % t;
    ModShift(a % t + b, q, t);
  }

  /** Adding a multiple of the modulus does not change the residue. */
  lemma {:induction false} ModShift(x: int, k: int, t: int)
    requires t > 0
    ensures (x + k * t) % t == x % t
  {
    var q := x / t;
    assert x == q * t + x % t;
    assert x + k * t == (q + k) * t + x % t;
    DivModUnique(x + k * t, t, q + k, x % t);
  }

  /** Numbers less than d apart have different residues. */
  lemma {:induction false} ResiduesDiffer(x: nat, y: nat, d: nat)
    requires x < y < x + d
    ensures x % d != y % d
  {
    var a, b := Div(x, d), Div(y, d);
    DivMod(x, d);
    DivMod(y, d);
    if x % d == y % d {
      assert (b - a) * d == y - x;
      if b > a {
        MulAtLeast(b - a, d);
      } else {
        MulMonotone(b, a, d);
      }
    }
  }

  lemma {:induction false} AlignedSum(base: nat, k: nat, d: nat)
    requires d > 0 && base % d == 0
    ensures (base + k * d) % d == 0
  {
    ModShift(base, k, d);
  }

  lemma {:induction false} AlignedProduct(k: nat, m: nat, d: nat)
    requires d > 0 && m % d == 0
    ensures (k * m) % d == 0
  {
    var e := m / d;
    assert m == e * d;
    assert k * m == (k * e) * d;
    ModShift(0, k * e, d);
  }

  lemma {:induction false} ModSmall(x: int, t: int)
    requires 0 <= x < t
    ensures x % t == x
  {
  }

  // ---- least elements -----------------------------------------------------

  function Least(s: set<nat>): (m: nat)
    requires s != {}
    ensures m in s && forall x :: x in s ==> m <= x
  {
    assert exists m :: m in s && forall x :: x in s ==> m <= x by {
      var _ := LeastExists(s);
    }
    var m :| m in s && forall x :: x in s ==> m <= x;
    m
  }

  lemma {:induction false} LeastExists(s: set<nat>) returns (m: nat)
    requires s != {}
    ensures m in s && forall x :: x in s ==> m <= x
  {
    m :| m in s;
    var rest := s - {m};
    assert s == rest + {m};
    if rest != {} {
      var r := LeastExists(rest);
      if r < m {
        m := r;
      }
    }
  }

  // ---- finite sums --------------------------------------------------------

  /** f(0) + ... + f(n - 1). */
  ghost function SumTo(n: nat, f: int -> int): int {
    if n == 0 then 0 else SumTo(n - 1, f) + f(n - 1)
  }

  lemma {:induction false} SumExt(n: nat, f: int -> int, g: int -> int)
    requires forall j :: 0 <= j < n ==> f(j) == g(j)
    ensures SumTo(n, f) == SumTo(n, g)
  {
    if n > 0 {
      SumExt(n - 1, f, g);
    }
  }

  lemma {:induction false} SumSplit(a: nat, b: nat, f: int -> int)
    ensures SumTo(a + b, f) == SumTo(a, f) + SumTo(b, j => f(a + j))
  {
    if b > 0 {
      SumSplit(a, b - 1, f);
    }
  }

  lemma {:induction false} SumPlus(n: nat, f: int -> int, g: int -> int)
    ensures SumTo(n, j => f(j) + g(j)) == SumTo(n, f) + SumTo(n, g)
  {
    if n > 0 {
      SumPlus(n - 1, f, g);
      assert SumTo(n, j => f(j) + g(j)) == SumTo(n - 1, j => f(j) + g(j)) + (f(n - 1) + g(n - 1));
    }
  }

  lemma {:induction false} SumZero(n: nat, f: int -> int)
    requires forall j :: 0 <= j < n ==> f(j) == 0
    ensures SumTo(n, f) == 0
  {
    if n > 0 {
      SumZero(n - 1, f);
    }
  }

  /** Two sums that agree except at k differ by the difference at k. */
  lemma {:induction false} SumChange(n: nat, f: int -> int, g: int -> int, k: nat)
    requires k < n
    requires forall j :: 0 <= j < n && j != k ==> f(j) == g(j)
    ensures SumTo(n, g) == SumTo(n, f) + g(k) - f(k)
  {
    if k == n - 1 {
      SumExt(n - 1, f, g);
    } else {
      SumChange(n - 1, f, g, k);
    }
  }

  lemma {:induction false} SumBounds(n: nat, f: int -> int, g: int -> int)
    requires forall j :: 0 <= j < n ==> f(j) <= g(j)
    ensures SumTo(n, f) <= SumTo(n, g)
  {
    if n > 0 {
      SumBounds(n - 1, f, g);
    }
  }

  /** Reducing every term first does not change the residue of a sum. */
  lemma {:induction false} SumOfResidues(n: nat, f: int -> int, g: int -> int, t: nat)
    requires t > 0
    requires forall j :: 0 <= j < n ==> f(j) == Residue(g(j), t)
    ensures Residue(SumTo(n, f), t) == Residue(SumTo(n, g), t)
  {
    if n > 0 {
      SumOfResidues(n - 1, f, g, t);
      ModAdd(SumTo(n - 1, g), g(n - 1), t);
      ModAdd(SumTo(n - 1, f), f(n - 1), t);
    }
  }
}
