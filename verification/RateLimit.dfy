/** Token buckets and the request gate: how much can be admitted over any stretch of any run. */
module RateLimit {

  /** What a rate yields between two times. */
  function Refill(rate: real, from: real, to: real): (x: real) {
    (to - from) * rate
  }

  lemma {:induction false} RefillGrows(rate: real, from: real, to: real)
    requires rate >= 0.0 && from <= to
    ensures Refill(rate, from, to) >= 0.0
  {
  }

  lemma {:induction false} RefillAdds(rate: real, from: real, mid: real, to: real)
    ensures Refill(rate, from, to) == Refill(rate, from, mid) + Refill(rate, mid, to)
  {
  }

  lemma {:induction false} RefillNow(rate: real, now: real)
    ensures Refill(rate, now, now) == 0.0
  {
  }

  datatype Bucket = Bucket(rate: real, burst: real, tokens: real, last: real) {
    predicate Ok(now: real) {
      0.0 <= rate && 0.0 <= tokens <= burst && last <= now
    }

    /** What the bucket would hold at a later time. */
    function Level(now: real): (x: real) {
      var full := tokens + Refill(rate, last, now);
      if burst < full then burst else full
    }

    /** The bucket after a request at that time. */
    function Try(now: real): (b: Bucket) {
      if Level(now) < 1.0 then this.(tokens := Level(now), last := now)
          else this.(tokens := Level(now) - 1.0, last := now)
    }

    predicate Admits(now: real) {
      Level(now) >= 1.0
    }
  }

  lemma {:induction false} TryKeepsOk(b: Bucket, now: real, later: real)
    requires b.Ok(now) && now <= later
    ensures b.Try(now).Ok(later) && b.Try(now).rate == b.rate && b.Try(now).burst == b.burst
    ensures b.Try(now).Level(later) <= b.Level(now) - (if b.Admits(now) then 1.0 else 0.0) + Refill(b.rate, now, later)
  {
    hide Refill;
    RefillGrows(b.rate, b.last, now);
    RefillGrows(b.rate, now, later);
  }

  class RateLimiter {
    const rate: real
    const burst: real
    var tokens: real
    var last: real

    function Model(): (b: Bucket)
      reads this
    {
      Bucket(rate, burst, tokens, last)
    }

    constructor (rate: real, burst: real, now: real)
      ensures Model() == Bucket(rate, burst, burst, now)
    {
      this.rate, this.burst, this.tokens, this.last := rate, burst, burst, now;
    }

    method TryAcquire(now: real) returns (ok: bool)
      modifies this
      ensures ok == old(Model()).Admits(now) && Model() == old(Model()).Try(now)
    {
      var elapsed := now - last;
      last := now;
      var refilled := tokens + elapsed * rate;
      tokens := if burst < refilled then burst else refilled;
      if tokens < 1.0 {
        return false;
      }
      tokens := tokens - 1.0;
      ok := true;
    }
  }

  // ---- the gate -----------------------------------------------------------

  const GLOBAL_MULTIPLE: real := 64.0

  datatype Request = Request(principal: string, time: real)

  datatype Gate = Gate(rate: real, burst: real, limiters: map<string, Bucket>, global: Bucket) {
    /** A principal's bucket; a full one for somebody new. */
    function BucketOf(p: string, now: real): (b: Bucket) {
      if p in limiters then limiters[p] else Bucket(rate, burst, burst, now)
    }

    predicate Admits(q: Request) {
      BucketOf(q.principal, q.time).Admits(q.time) && global.Admits(q.time)
    }

    /** The principal's bucket is drawn first; the shared one only if that admits. */
    function After(q: Request): (g: Gate) {
      var b := BucketOf(q.principal, q.time);
      this.(limiters := limiters[q.principal := b.Try(q.time)],
            global := if b.Admits(q.time) then global.Try(q.time) else global)
    }

    ghost predicate Ok(now: real) {
      && 0.0 <= rate && 0.0 <= burst
      && (forall p :: p in limiters ==> limiters[p].Ok(now) && limiters[p].rate == rate && limiters[p].burst == burst)
      && global.Ok(now) && global.rate == GLOBAL_MULTIPLE * rate && global.burst == GLOBAL_MULTIPLE * burst
    }
  }

  predicate Ordered(qs: seq<Request>) {
    forall i, j :: 0 <= i < j < |qs| ==> qs[i].time <= qs[j].time
  }

  function RunGate(g: Gate, qs: seq<Request>): (r: Gate)
    decreases |qs|
  {
    if qs == [] then g else RunGate(g.After(qs[0]), qs[1..])
  }

  /** How many requests of those picked are admitted in a run. */
  function Admitted(g: Gate, qs: seq<Request>, pick: string -> bool): (n: nat)
    decreases |qs|
  {
    if qs == [] then 0
    else (if g.Admits(qs[0]) && pick(qs[0].principal) then 1 else 0) + Admitted(g.After(qs[0]), qs[1..], pick)
  }

  lemma {:induction false} AfterKeepsOk(g: Gate, q: Request, later: real)
    requires g.Ok(q.time) && q.time <= later
    ensures g.After(q).Ok(later) && g.After(q).rate == g.rate && g.After(q).burst == g.burst
  {
    TryKeepsOk(g.BucketOf(q.principal, q.time), q.time, later);
    TryKeepsOk(g.global, q.time, later);
  }

  lemma {:induction false} OkLater(b: Bucket, now: real, later: real)
    requires b.Ok(now) && now <= later
    ensures b.Ok(later) && b.Level(later) <= b.Level(now) + Refill(b.rate, now, later)
  {
    hide Refill;
    RefillGrows(b.rate, now, later);
    RefillAdds(b.rate, b.last, now, later);
  }

  function One(yes: bool): (x: real) {
    if yes then 1.0 else 0.0
  }

  /** One request moves a principal's level down by what it admits, and time moves it up by no more than the rate. */
  lemma {:induction false} PrincipalStep(g: Gate, q: Request, p: string, later: real)
    requires g.Ok(q.time) && q.time <= later
    ensures g.After(q).BucketOf(p, later).Level(later)
            <= g.BucketOf(p, q.time).Level(q.time) - One(g.Admits(q) && q.principal == p)
                + Refill(g.rate, q.time, later)
  {
    hide Refill;
    RefillGrows(g.rate, q.time, later);
    var b := g.BucketOf(p, q.time);
    RefillNow(g.rate, q.time);
    RefillNow(g.rate, later);
    if q.principal == p {
      TryKeepsOk(b, q.time, later);
      hide Bucket.Try;
    } else if p in g.limiters {
      OkLater(b, q.time, later);
    }
  }

  lemma {:induction false} GlobalStep(g: Gate, q: Request, later: real)
    requires g.Ok(q.time) && q.time <= later
    ensures g.After(q).global.Level(later)
            <= g.global.Level(q.time) - One(g.Admits(q)) + Refill(g.global.rate, q.time, later)
  {
    hide Refill;
    if g.BucketOf(q.principal, q.time).Admits(q.time) {
      TryKeepsOk(g.global, q.time, later);
    } else {
      OkLater(g.global, q.time, later);
    }
  }

  lemma {:induction false} LevelInRange(g: Gate, p: string, now: real)
    requires g.Ok(now)
    ensures 0.0 <= g.BucketOf(p, now).Level(now) <= g.burst
    ensures 0.0 <= g.global.Level(now) <= g.global.burst
  {
    hide Refill;
    RefillNow(g.rate, now);
    RefillGrows(g.global.rate, g.global.last, now);
    if p in g.limiters {
      RefillGrows(g.rate, g.limiters[p].last, now);
    }
  }

  function Principal(p: string): (pick: string -> bool) {
    (x: string) => x == p
  }

  function Everybody(): (pick: string -> bool) {
    (x: string) => true
  }

  lemma {:induction false} AdmittedSplits(g: Gate, qs: seq<Request>, pick: string -> bool)
    requires qs != []
    ensures Admitted(g, qs, pick) as real
            == One(g.Admits(qs[0]) && pick(qs[0].principal)) + Admitted(g.After(qs[0]), qs[1..], pick) as real
  {
    hide Gate.Admits, Gate.After;
  }

  lemma {:induction false} PrincipalBound(g: Gate, qs: seq<Request>, p: string)
    requires qs != [] && Ordered(qs) && g.Ok(qs[0].time)
    ensures Admitted(g, qs, Principal(p)) as real
            <= g.BucketOf(p, qs[0].time).Level(qs[0].time) + Refill(g.rate, qs[0].time, qs[|qs| - 1].time)
    decreases |qs|
  {
    hide Refill, Gate.Admits, Gate.After, Gate.BucketOf, Bucket.Level, Gate.Ok, One;
    var q := qs[0];
    AdmittedSplits(g, qs, Principal(p));
    if |qs| == 1 {
      RefillNow(g.rate, q.time);
      AfterKeepsOk(g, q, q.time);
      PrincipalStep(g, q, p, q.time);
      LevelInRange(g.After(q), p, q.time);
    } else {
      var next, end := qs[1].time, qs[|qs| - 1].time;
      AfterKeepsOk(g, q, next);
      PrincipalStep(g, q, p, next);
      PrincipalBound(g.After(q), qs[1..], p);
      RefillAdds(g.rate, q.time, next, end);
    }
  }

  lemma {:induction false} GlobalBound(g: Gate, qs: seq<Request>)
    requires qs != [] && Ordered(qs) && g.Ok(qs[0].time)
    ensures Admitted(g, qs, Everybody()) as real
            <= g.global.Level(qs[0].time) + Refill(g.global.rate, qs[0].time, qs[|qs| - 1].time)
    decreases |qs|
  {
    hide Refill, Gate.Admits, Gate.BucketOf, Bucket.Level, Gate.Ok, One;
    var q := qs[0];
    AdmittedSplits(g, qs, Everybody());
    if |qs| == 1 {
      RefillNow(g.global.rate, q.time);
      AfterKeepsOk(g, q, q.time);
      GlobalStep(g, q, q.time);
      LevelInRange(g.After(q), "", q.time);
    } else {
      var next, end := qs[1].time, qs[|qs| - 1].time;
      AfterKeepsOk(g, q, next);
      GlobalStep(g, q, next);
      GlobalBound(g.After(q), qs[1..]);
      RefillAdds(g.global.rate, q.time, next, end);
    }
  }

  lemma {:induction false} RunKeepsOk(g: Gate, qs: seq<Request>, later: real)
    requires Ordered(qs) && (qs == [] ==> g.Ok(later)) && (qs != [] ==> g.Ok(qs[0].time) && qs[|qs| - 1].time <= later)
    ensures RunGate(g, qs).Ok(later) && RunGate(g, qs).rate == g.rate && RunGate(g, qs).burst == g.burst
    decreases |qs|
  {
    if qs != [] {
      AfterKeepsOk(g, qs[0], if |qs| > 1 then qs[1].time else later);
      RunKeepsOk(g.After(qs[0]), qs[1..], later);
    }
  }

  /**
   In any stretch of any run, one principal gets at most burst + rate * T requests through, where T is the time
   between the first and the last request of the stretch, and everybody together at most 64 times that.
   */
  lemma {:induction false} StretchBound(g: Gate, before: seq<Request>, stretch: seq<Request>, p: string)
    requires stretch != [] && Ordered(before + stretch) && g.Ok((before + stretch)[0].time)
    ensures var gained := Refill(g.rate, stretch[0].time, stretch[|stretch| - 1].time);
            && Admitted(RunGate(g, before), stretch, Principal(p)) as real <= g.burst + gained
            && Admitted(RunGate(g, before), stretch, Everybody()) as real <= GLOBAL_MULTIPLE * (g.burst + gained)
  {
    var all := before + stretch;
    assert forall i :: 0 <= i < |before| ==> before[i] == all[i];
    assert forall i :: 0 <= i < |stretch| ==> stretch[i] == all[|before| + i];
    assert Ordered(before) && Ordered(stretch);
    var first, end := stretch[0].time, stretch[|stretch| - 1].time;
    RunKeepsOk(g, before, first);
    var mid := RunGate(g, before);
    hide Ordered, RunGate, Admitted, Gate.BucketOf, Bucket.Level;
    PrincipalBound(mid, stretch, p);
    GlobalBound(mid, stretch);
    LevelInRange(mid, p, first);
    RefillScales(g.rate, GLOBAL_MULTIPLE, first, end);
  }

  lemma {:induction false} RefillScales(rate: real, k: real, from: real, to: real)
    ensures Refill(k * rate, from, to) == k * Refill(rate, from, to)
  {
  }

  // ---- who is never refused -----------------------------------------------

  lemma {:induction false} RunLast(g: Gate, qs: seq<Request>)
    requires qs != []
    ensures RunGate(g, qs) == RunGate(g, qs[..|qs| - 1]).After(qs[|qs| - 1])
    decreases |qs|
  {
    hide Gate.After;
    if |qs| > 1 {
      RunLast(g.After(qs[0]), qs[1..]);
      assert qs[1..][..|qs| - 2] == qs[..|qs| - 1][1..];
    }
  }

  /** What all of these principals could still draw. */
  function Levels(g: Gate, ps: seq<string>, now: real): (x: real) {
    if ps == [] then 0.0 else Levels(g, ps[..|ps| - 1], now) + g.BucketOf(ps[|ps| - 1], now).Level(now)
  }

  predicate NoTwice(ps: seq<string>) {
    forall i, j :: 0 <= i < j < |ps| ==> ps[i] != ps[j]
  }

  /** The shared bucket holds at least what the principals' own buckets hold together. */
  ghost predicate Covered(g: Gate, ps: seq<string>, now: real) {
    g.Ok(now) && NoTwice(ps) && |ps| <= 64 && Levels(g, ps, now) <= g.global.Level(now)
  }

  lemma {:induction false} LevelsLater(g: Gate, ps: seq<string>, now: real, later: real)
    requires g.Ok(now) && now <= later
    ensures Levels(g, ps, later) <= Levels(g, ps, now) + Times(|ps|, Refill(g.rate, now, later))
    ensures Levels(g, ps, later) <= Times(|ps|, g.burst)
  {
    hide Refill, Gate.BucketOf, Gate.Ok, Bucket.Level;
    if ps != [] {
      var front, p := ps[..|ps| - 1], ps[|ps| - 1];
      LevelsLater(g, front, now, later);
      LevelLater(g, p, now, later);
    }
  }

  function Times(n: nat, x: real): (r: real) {
    if n == 0 then 0.0 else Times(n - 1, x) + x
  }

  lemma {:induction false} TimesIsProduct(n: nat, x: real)
    ensures Times(n, x) == n as real * x
  {
    if n > 0 {
      TimesIsProduct(n - 1, x);
    }
  }

  lemma {:induction false} TimesUpTo64(n: nat, x: real)
    requires n <= 64 && x >= 0.0
    ensures Times(n, x) <= GLOBAL_MULTIPLE * x
  {
    TimesIsProduct(n, x);
    MulUpTo(n as real, GLOBAL_MULTIPLE, x);
  }

  lemma {:induction false} LevelLater(g: Gate, p: string, now: real, later: real)
    requires g.Ok(now) && now <= later
    ensures g.BucketOf(p, later).Level(later) <= g.BucketOf(p, now).Level(now) + Refill(g.rate, now, later)
    ensures g.BucketOf(p, later).Level(later) <= g.burst
  {
    hide Refill;
    RefillGrows(g.rate, now, later);
    RefillNow(g.rate, now);
    RefillNow(g.rate, later);
    if p in g.limiters {
      OkLater(g.limiters[p], now, later);
    }
  }

  lemma {:induction false} GlobalLater(b: Bucket, now: real, later: real)
    requires b.Ok(now) && now <= later
    ensures b.Level(later) == b.burst || b.Level(later) >= b.Level(now) + Refill(b.rate, now, later)
  {
    hide Refill;
    RefillAdds(b.rate, b.last, now, later);
  }

  lemma {:induction false} CoveredLater(g: Gate, ps: seq<string>, now: real, later: real)
    requires Covered(g, ps, now) && now <= later
    ensures Covered(g, ps, later)
  {
    LevelsLater(g, ps, now, later);
    GlobalLater(g.global, now, later);
    RefillGrows(g.rate, now, later);
    RefillScales(g.rate, GLOBAL_MULTIPLE, now, later);
    hide Refill, Levels, Bucket.Level;
    GateOkLater(g, now, later);
    TimesUpTo64(|ps|, Refill(g.rate, now, later));
    TimesUpTo64(|ps|, g.burst);
  }

  lemma {:induction false} MulUpTo(a: real, b: real, x: real)
    requires a <= b && x >= 0.0
    ensures a * x <= b * x
  {
  }

  lemma {:induction false} LevelAfter(b: Bucket, now: real)
    requires b.Ok(now)
    ensures b.Try(now).Level(now) == b.Level(now) - One(b.Admits(now))
  {
    hide Refill;
    RefillNow(b.rate, now);
    RefillGrows(b.rate, b.last, now);
  }

  /** A request moves only its own principal's level. */
  lemma {:induction false} LevelsAfter(g: Gate, ps: seq<string>, q: Request)
    requires g.Ok(q.time) && NoTwice(ps)
    ensures Levels(g.After(q), ps, q.time)
            == Levels(g, ps, q.time)
               - One(q.principal in ps && g.BucketOf(q.principal, q.time).Admits(q.time))
  {
    if ps != [] {
      var front, p := ps[..|ps| - 1], ps[|ps| - 1];
      assert ps == front + [p];
      LevelsAfter(g, front, q);
      if p == q.principal {
        LevelAfter(g.BucketOf(p, q.time), q.time);
        assert p !in front;
      }
      hide Bucket.Level, Bucket.Try, Bucket.Admits;
    }
  }

  lemma {:induction false} OwnIsPart(g: Gate, ps: seq<string>, p: string, now: real)
    requires g.Ok(now) && p in ps
    ensures g.BucketOf(p, now).Level(now) <= Levels(g, ps, now)
  {
    hide Gate.BucketOf, Bucket.Level, Gate.Ok;
    var front, last := ps[..|ps| - 1], ps[|ps| - 1];
    assert ps == front + [last];
    LevelInRange(g, last, now);
    if p in front {
      OwnIsPart(g, front, p, now);
    } else {
      LevelsNonNegative(g, front, now);
    }
  }

  lemma {:induction false} LevelsNonNegative(g: Gate, ps: seq<string>, now: real)
    requires g.Ok(now)
    ensures Levels(g, ps, now) >= 0.0
  {
    hide Gate.BucketOf, Bucket.Level, Gate.Ok;
    if ps != [] {
      LevelsNonNegative(g, ps[..|ps| - 1], now);
      LevelInRange(g, ps[|ps| - 1], now);
    }
  }

  lemma {:induction false} CoveredAfter(g: Gate, ps: seq<string>, q: Request)
    requires Covered(g, ps, q.time) && q.principal in ps
    ensures Covered(g.After(q), ps, q.time)
    ensures (g.BucketOf(q.principal, q.time).Admits(q.time) ==> g.global.Admits(q.time))
  {
    AfterKeepsOk(g, q, q.time);
    LevelsAfter(g, ps, q);
    OwnIsPart(g, ps, q.principal, q.time);
    LevelAfter(g.global, q.time);
    hide Levels, Bucket.Try, Bucket.Level;
  }

  ghost predicate AmongThem(qs: seq<Request>, ps: seq<string>) {
    forall i :: 0 <= i < |qs| ==> qs[i].principal in ps
  }

  lemma {:induction false} RunIsCovered(g: Gate, qs: seq<Request>, ps: seq<string>, start: real, now: real)
    requires Covered(g, ps, start) && Ordered(qs) && AmongThem(qs, ps)
    requires if qs == [] then start <= now else start <= qs[0].time && qs[|qs| - 1].time <= now
    ensures Covered(RunGate(g, qs), ps, now)
    decreases |qs|
  {
    hide Covered, Gate.After;
    if qs == [] {
      CoveredLater(g, ps, start, now);
    } else {
      var front, q := qs[..|qs| - 1], qs[|qs| - 1];
      RunIsCovered(g, front, ps, start, q.time);
      RunLast(g, qs);
      CoveredAfter(RunGate(g, front), ps, q);
      CoveredLater(RunGate(g, qs), ps, q.time, now);
    }
  }

  /** A gate as it is built: nobody seen yet, the shared bucket full. */
  ghost predicate New(g: Gate, now: real) {
    g.Ok(now) && g.limiters == map[] && g.global.tokens == g.global.burst
  }

  lemma {:induction false} NewIsCovered(g: Gate, ps: seq<string>, now: real)
    requires New(g, now) && NoTwice(ps) && |ps| <= 64
    ensures Covered(g, ps, now)
  {
    LevelsLater(g, ps, now, now);
    TimesUpTo64(|ps|, g.burst);
    RefillGrows(g.global.rate, g.global.last, now);
    hide Levels, Refill;
  }

  /** With no more than 64 principals in a whole run, the shared bucket never refuses what a principal's own admits. */
  lemma {:induction false} SharedNeverRefuses(g: Gate, before: seq<Request>, q: Request, ps: seq<string>, start: real)
    requires New(g, start) && NoTwice(ps) && |ps| <= 64
    requires Ordered(before + [q]) && AmongThem(before + [q], ps) && start <= (before + [q])[0].time
    ensures RunGate(g, before).Admits(q) <==> RunGate(g, before).BucketOf(q.principal, q.time).Admits(q.time)
  {
    var all := before + [q];
    assert forall i :: 0 <= i < |before| ==> before[i] == all[i];
    assert all[|before|] == q;
    assert Ordered(before) && AmongThem(before, ps) && q.principal in ps;
    assert before != [] ==> before[|before| - 1].time <= q.time && before[0] == all[0];
    hide Covered, Ordered, AmongThem, RunGate, Gate.BucketOf, Bucket.Admits;
    NewIsCovered(g, ps, start);
    RunIsCovered(g, before, ps, start, q.time);
    CoveredAfter(RunGate(g, before), ps, q);
  }

  /** One request each, of different principals, all at the same time. */
  ghost predicate AtOnce(qs: seq<Request>, now: real) {
    && (forall i :: 0 <= i < |qs| ==> qs[i].time == now)
    && (forall i, j :: 0 <= i < j < |qs| ==> qs[i].principal != qs[j].principal)
  }

  lemma {:induction false} AtOnceDrains(g: Gate, qs: seq<Request>, now: real)
    requires New(g, now) && g.burst == 1.0 && AtOnce(qs, now) && |qs| <= 64
    ensures RunGate(g, qs).Ok(now) && RunGate(g, qs).global.Level(now) == GLOBAL_MULTIPLE - |qs| as real
    ensures RunGate(g, qs).burst == 1.0 && forall p :: p in RunGate(g, qs).limiters ==>
              exists i :: 0 <= i < |qs| && qs[i].principal == p
    decreases |qs|
  {
    if qs == [] {
      RefillGrows(g.global.rate, g.global.last, now);
    } else {
      var front, q := qs[..|qs| - 1], qs[|qs| - 1];
      AtOnceDrains(g, front, now);
      RunLast(g, qs);
      var r := RunGate(g, front);
      assert q.principal !in r.limiters;
      AfterKeepsOk(r, q, now);
      RefillNow(r.rate, now);
      LevelAfter(r.global, now);
      forall p | p in RunGate(g, qs).limiters
        ensures exists i :: 0 <= i < |qs| && qs[i].principal == p
      {
        if p != q.principal {
          var i :| 0 <= i < |front| && front[i].principal == p;
          assert qs[i] == front[i];
        }
      }
    }
  }

  /**
   More than 64 is too many: with a burst of one, the 65th of 65 principals at once is refused by the shared bucket
   alone.
   */
  lemma {:induction false} SixtyFifthIsRefused(g: Gate, before: seq<Request>, q: Request)
    requires New(g, q.time) && g.burst == 1.0 && AtOnce(before + [q], q.time) && |before| == 64
    ensures RunGate(g, before).BucketOf(q.principal, q.time).Admits(q.time) && !RunGate(g, before).Admits(q)
  {
    var all := before + [q];
    assert forall i :: 0 <= i < |before| ==> before[i] == all[i];
    assert all[|before|] == q;
    AtOnceDrains(g, before, q.time);
    RefillNow(g.rate, q.time);
    assert q.principal !in RunGate(g, before).limiters;
    RefillNow(RunGate(g, before).rate, q.time);
  }

  /** A principal's bucket was last touched by one of the principal's own requests. */
  lemma {:induction false} TouchedByOwn(g: Gate, qs: seq<Request>, p: string, start: real)
    requires New(g, start) && p in RunGate(g, qs).limiters
    ensures exists i :: 0 <= i < |qs| && qs[i].principal == p && qs[i].time == RunGate(g, qs).limiters[p].last
    decreases |qs|
  {
    if qs != [] {
      var front, q := qs[..|qs| - 1], qs[|qs| - 1];
      RunLast(g, qs);
      if q.principal != p {
        TouchedByOwn(g, front, p, start);
        var i :| 0 <= i < |front| && front[i].principal == p && front[i].time == RunGate(g, front).limiters[p].last;
        assert qs[i] == front[i];
      }
    }
  }

  lemma {:induction false} RefilledAdmits(b: Bucket, now: real)
    requires b.Ok(now) && b.burst >= 1.0 && (Refill(b.rate, b.last, now) >= 1.0 || b.tokens == b.burst)
    ensures b.Admits(now)
  {
    hide Refill;
    RefillGrows(b.rate, b.last, now);
  }

  /** Any two requests of p are at least one refill apart. */
  ghost predicate Patient(g: Gate, qs: seq<Request>, p: string) {
    forall i, j :: 0 <= i < j < |qs| && qs[i].principal == p && qs[j].principal == p ==>
      Refill(g.rate, qs[i].time, qs[j].time) >= 1.0
  }

  /** In a run of no more than 64 principals, one whose requests are at least one refill apart is never refused. */
  lemma {:induction false} PatientIsAdmitted(g: Gate, before: seq<Request>, q: Request, ps: seq<string>, start: real)
    requires New(g, start) && g.burst >= 1.0 && NoTwice(ps) && |ps| <= 64
    requires Ordered(before + [q]) && AmongThem(before + [q], ps) && start <= (before + [q])[0].time
    requires Patient(g, before + [q], q.principal)
    ensures RunGate(g, before).Admits(q)
  {
    var all, p := before + [q], q.principal;
    assert forall i :: 0 <= i < |before| ==> before[i] == all[i];
    assert all[|before|] == q;
    assert Ordered(before) && (before != [] ==> before[|before| - 1].time <= q.time && before[0] == all[0]);
    SharedNeverRefuses(g, before, q, ps, start);
    hide Ordered, AmongThem;
    RunOkAt(g, before, start, q.time);
    var r := RunGate(g, before);
    if p in r.limiters {
      TouchedByOwn(g, before, p, start);
      var i :| 0 <= i < |before| && before[i].principal == p && before[i].time == r.limiters[p].last;
      assert Refill(g.rate, all[i].time, all[|before|].time) >= 1.0;
    }
    RefilledAdmits(r.BucketOf(p, q.time), q.time);
  }

  lemma {:induction false} RunOkAt(g: Gate, qs: seq<Request>, start: real, now: real)
    requires g.Ok(start) && Ordered(qs)
    requires (if qs == [] then start <= now else start <= qs[0].time && qs[|qs| - 1].time <= now)
    ensures RunGate(g, qs).Ok(now) && RunGate(g, qs).rate == g.rate && RunGate(g, qs).burst == g.burst
  {
    hide Ordered;
    GateOkLater(g, start, if qs == [] then now else qs[0].time);
    RunKeepsOk(g, qs, now);
  }

  lemma {:induction false} GateOkLater(g: Gate, now: real, later: real)
    requires g.Ok(now) && now <= later
    ensures g.Ok(later)
  {
  }

  class RequestGate {
    const rate: real
    const burst: real
    var limiters: map<string, Bucket>
    const global: RateLimiter

    function Model(): (g: Gate)
      reads this, global
    {
      Gate(rate, burst, limiters, global.Model())
    }

    /** A fresh gate satisfies what the bounds ask for. */
    constructor (tokensPerSecond: nat, burst: nat, now: real)
      ensures fresh(global) && New(Model(), now) && rate == tokensPerSecond as real && this.burst == burst as real
    {
      this.rate, this.burst, this.limiters := tokensPerSecond as real, burst as real, map[];
      this.global := new RateLimiter(tokensPerSecond as real * GLOBAL_MULTIPLE, burst as real * GLOBAL_MULTIPLE, now);
    }

    method Admit(principal: string, now: real) returns (ok: bool)
      modifies this, global
      ensures ok == old(Model()).Admits(Request(principal, now))
      ensures Model() == old(Model()).After(Request(principal, now))
    {
      if principal !in limiters {
        limiters := limiters[principal := Bucket(rate, burst, burst, now)];
      }
      var b := limiters[principal];
      limiters := limiters[principal := b.Try(now)];
      if !b.Admits(now) {
        return false;
      }
      ok := global.TryAcquire(now);
    }
  }
}
