/** The crypto geometry that configuration validation accepts is one on which every query runs and is answered right. */
module Geometry {
  import opened Base
  import opened Seal
  import opened SlotCodec
  import opened Placement
  import opened Indicator
  import opened Matcher
  import opened Evaluation
  import opened Combining
  import opened QueryMeaning
  import opened QueryPath
  import opened RecordCodec

  datatype Crypto = Crypto(degree: nat, plainBits: nat, primes: seq<int>, keyBits: nat, buckets: nat, recordBytes: nat)

  // ---- powers of two by their bits ----------------------------------------

  /** Bitwise and. */
  function BitAnd(a: nat, b: nat): (c: nat) {
    if a == 0 || b == 0 then 0 else (a % 2) * (b % 2) + 2 * BitAnd(a / 2, b / 2)
  }

  lemma {:induction false} BitAndSelf(a: nat)
    ensures BitAnd(a, a) == a
  {
    if a > 0 {
      BitAndSelf(a / 2);
    }
  }

  /** The source's test n != 0 and (n & (n - 1)) == 0. */
  predicate BitTest(n: nat) {
    n != 0 && BitAnd(n, n - 1) == 0
  }

  lemma {:induction false} BitTestIsPowerOfTwo(n: nat)
    ensures BitTest(n) <==> IsPowerOfTwo(n)
  {
    if n > 1 {
      var m := n / 2;
      if n % 2 == 0 {
        assert (n - 1) % 2 == 1 && (n - 1) / 2 == m - 1;
        BitTestIsPowerOfTwo(m);
      } else {
        assert (n - 1) % 2 == 0 && (n - 1) / 2 == m;
        BitAndSelf(m);
      }
    }
  }

  // ---- validation ---------------------------------------------------------

  /** What the crypto and storage part of validation accepts. */
  ghost predicate Accepts(c: Crypto) {
    && IsPowerOfTwo(c.degree) && 1024 <= c.degree <= 32768
    && 2 <= c.plainBits <= 60
    && c.primes != [] && (forall i :: 0 <= i < |c.primes| ==> 1 <= c.primes[i] <= 60)
    && IsPowerOfTwo(c.keyBits) && c.keyBits <= 64 && c.keyBits <= c.degree / 2
    && 1 + Exponent(c.keyBits) <= |c.primes|
    && IsPowerOfTwo(c.buckets) && c.buckets <= Div(c.degree / 2, c.keyBits)
    && c.recordBytes > 0
  }

  method Validate(c: Crypto) returns (r: Result<()>)
    ensures r == if Accepts(c) then Ok(()) else Err(InvalidArgument)
  {
    BitTestIsPowerOfTwo(c.degree);
    BitTestIsPowerOfTwo(c.keyBits);
    BitTestIsPowerOfTwo(c.buckets);
    if !BitTest(c.degree) || c.degree < 1024 || c.degree > 32768 || c.plainBits < 2 || c.plainBits > 60
        || c.primes == [] {
      return Err(InvalidArgument);
    }
    for i := 0 to |c.primes|
      invariant forall j :: 0 <= j < i ==> 1 <= c.primes[j] <= 60
    {
      if c.primes[i] < 1 || c.primes[i] > 60 {
        return Err(InvalidArgument);
      }
    }
    if !BitTest(c.keyBits) || c.keyBits > 64 || c.keyBits > c.degree / 2 {
      return Err(InvalidArgument);
    }
    var log := 0;
    var k := c.keyBits;
    while k > 1
      invariant IsPowerOfTwo(k) && log + Exponent(k) == Exponent(c.keyBits)
    {
      k := k / 2;
      log := log + 1;
    }
    if 1 + log > |c.primes| {
      return Err(InvalidArgument);
    }
    if !BitTest(c.buckets) || c.buckets > Div(c.degree / 2, c.keyBits) || c.recordBytes == 0 {
      return Err(InvalidArgument);
    }
    r := Ok(());
  }

  /**
   The slot width: as many whole bytes as are sure to stay below the plaintext modulus, but at least 1 and at most 7.
   */
  function BytesPerSlot(plainBits: nat): (b: nat)
    ensures 1 <= b <= 7
    ensures (b > 1 ==> 8 * b < plainBits) && (b < 7 ==> 8 * (b + 1) >= plainBits)
  {
    var bytes := if plainBits > 8 then (plainBits - 1) / 8 else 1;
    if bytes > 7 then 7 else bytes
  }

  /** A context built for the configuration: half the degree per row, and a batching modulus of the right size. */
  predicate ContextOf(c: Crypto, x: Context) {
    x.row == c.degree / 2 && x.t > 2 * c.degree && c.plainBits > 0 && Pow2(c.plainBits - 1) <= x.t
  }

  function EmptyTable(c: Crypto): (t: Table) {
    Table(c.keyBits, [], [], c.recordBytes, BytesPerSlot(c.plainBits))
  }

  /** A slot can hold the bytes packed into it. */
  lemma {:induction false} SlotsHoldBytes(c: Crypto, x: Context)
    requires Accepts(c) && ContextOf(c, x)
    ensures Pow256(BytesPerSlot(c.plainBits)) <= x.t
  {
    var b := BytesPerSlot(c.plainBits);
    if b == 1 {
      assert Pow256(1) == 256;
    } else {
      assert 8 * b <= c.plainBits - 1;
      Pow256IsPow2(b);
      Pow2Monotone(8 * b, c.plainBits - 1);
    }
  }

  /** Every geometry check of evaluation and decoding passes, and the multiplications fit the modulus chain. */
  lemma {:induction false} AcceptedGeometry(c: Crypto, x: Context)
    requires Accepts(c) && ContextOf(c, x)
    ensures x.Valid() && IsPowerOfTwo(x.row) && x.row < U32
    ensures GeometryOk(x, EmptyTable(c), c.buckets) && c.buckets > 0
    ensures x.row % c.buckets == 0 && c.keyBits <= x.row && BytesPerSlot(c.plainBits) <= MAX_BYTES_PER_SLOT
    ensures 1 + Exponent(c.keyBits) <= |c.primes|
  {
    PowerOfTwoDivides(c.keyBits, x.row);
    var blocks := Div(x.row, c.keyBits);
    DivMod(x.row, c.keyBits);
    assert c.buckets <= x.row by {
      MulAtLeast(c.keyBits, blocks);
    }
    PowerOfTwoDivides(c.buckets, x.row);
  }

  /**
   On an accepted configuration, with the Galois keys the client generates, a query is evaluated, combined and decoded
   without error exactly when its distinct operands are as many as the plan expects, one to 64; the buckets then tell
   the truth.
   */
  method AnswerQuery(c: Crypto, x: Context, mix: nat -> nat, op: Op, values: seq<nat>, matchOperands: nat,
                     tables: seq<Table>, hw: nat)
      returns (r: Result<seq<BucketResult>>)
    requires Accepts(c) && ContextOf(c, x) && Deployed(EmptyTable(c), tables) && op != OtherOp
    requires forall v :: v in values ==> v < Pow2(c.keyBits)
    ensures r.Ok? <==> 1 <= |Dedup(values)| == matchOperands <= MAX_OPERANDS
    ensures r.Ok? && !HasRows(tables) ==> r.value == []
    ensures IsPowerOfTwo(x.row) && x.row < U32 && GeometryOk(x, EmptyTable(c), c.buckets) && c.buckets > 0
    ensures r.Ok? && HasRows(tables) ==>
              Answers(LayoutOf(x, EmptyTable(c), c.buckets), mix, ShardQueries(x.t, op, Dedup(values), tables), x.t,
                  r.value)
  {
    AcceptedGeometry(c, x);
    SlotsHoldBytes(c, x);
    var galois := RequiredGaloisSteps(x.SlotCount(), c.keyBits);
    assert HasSteps(galois, c.keyBits, x.row);
    hide HasSteps, GeometryOk, Answers, LayoutOf, HasRows, Deployed;
    r := RunQuery(x, mix, op, values, matchOperands, c.buckets, EmptyTable(c), tables, galois, hw);
  }
}
