/** Reconnecting with exponential backoff (sdk/go/reconnect.go), in exact arithmetic. */
module Backoff {

  datatype Config = Config(initialDelay: real, maxDelay: real, multiplier: real, jitter: real, maxAttempts: nat)

  const DEFAULT := Config(1.0, 30.0, 2.0, 0.2, 0)

  function Min(a: real, b: real): real {
    if a > b then b else a
  }

  function Pow(m: real, n: nat): real {
    if n == 0 then 1.0 else Pow(m, n - 1) * m
  }

  function Times(m: real): real -> real {
    d => d * m
  }

  /** Applying `g` and then the cap, `n` times over. */
  function CappedIterate(g: real -> real, x: real, cap: real, n: nat): real {
    if n == 0 then x else Min(g(CappedIterate(g, x, cap, n - 1)), cap)
  }

  function Iterate(g: real -> real, x: real, n: nat): real {
    if n == 0 then x else g(Iterate(g, x, n - 1))
  }

  /** The loop's unjittered delay after `n` earlier waits. */
  function LoopDelay(cfg: Config, n: nat): real {
    CappedIterate(Times(cfg.multiplier), cfg.initialDelay, cfg.maxDelay, n)
  }

  /** NextDelay's formula, before jitter. */
  function ClosedDelay(cfg: Config, n: nat): real {
    Min(cfg.initialDelay * Pow(cfg.multiplier, n), cfg.maxDelay)
  }

  /** `r` is the random draw in [0, 1). */
  function ApplyJitter(d: real, jitter: real, r: real): real {
    if jitter <= 0.0 then d
    else
      var delta := d * jitter;
      (d - delta) + r * ((d + delta) - (d - delta))
  }

  function NextDelay(cfg: Config, attempt: nat, r: real): real {
    ApplyJitter(ClosedDelay(cfg, attempt), cfg.jitter, r)
  }

  function Effective(cfg: Config): Config {
    if cfg.initialDelay == 0.0 then DEFAULT else cfg
  }

  /** Tries until `connects` succeeds, the attempts run out, or the context is done after `patience`
      waits. Reports how often it connected and the waits it made. */
  method ConnectWithReconnect(config: Config, connects: nat -> bool, draw: nat -> real, patience: nat)
    returns (ok: bool, attempts: nat, waits: seq<real>)
    ensures attempts == |waits| + 1 <= patience + 1
    ensures Effective(config).maxAttempts > 0 ==> attempts <= Effective(config).maxAttempts
    ensures forall i: nat :: i < attempts - 1 ==> !connects(i)
    ensures ok <==> connects(attempts - 1)
    ensures !ok ==> attempts == patience + 1 || attempts == Effective(config).maxAttempts
    ensures forall i: nat {:trigger waits[i]} :: i < |waits| ==>
      waits[i] == ApplyJitter(LoopDelay(Effective(config), i), Effective(config).jitter, draw(i))
    ensures config.initialDelay == 0.0 && !ok ==> attempts == patience + 1
    ensures config.initialDelay == 0.0 ==> forall i: nat {:trigger waits[i]} :: i < |waits| ==>
      waits[i] == ApplyJitter(Min(Pow(2.0, i), 30.0), 0.2, draw(i))
    ensures config.initialDelay != 0.0 && !ok ==> attempts == patience + 1 || attempts == config.maxAttempts
    ensures config.initialDelay != 0.0 && config.maxAttempts > 0 ==> attempts <= config.maxAttempts
    ensures config.initialDelay != 0.0 ==> forall i: nat {:trigger waits[i]} :: i < |waits| ==>
      waits[i] == ApplyJitter(LoopDelay(config, i), config.jitter, draw(i))
  {
    var cfg := Effective(config);
    var delay := cfg.initialDelay;
    attempts, waits := 0, [];
    while true
      invariant attempts == |waits| <= patience
      invariant cfg.maxAttempts > 0 ==> attempts < cfg.maxAttempts
      invariant delay == LoopDelay(cfg, attempts)
      invariant forall i: nat :: i < attempts ==> !connects(i)
      invariant forall i: nat {:trigger waits[i]} :: i < attempts ==>
        waits[i] == ApplyJitter(LoopDelay(cfg, i), cfg.jitter, draw(i))
      decreases patience - attempts
    {
      ok := connects(attempts);
      attempts := attempts + 1;
      if ok || (cfg.maxAttempts > 0 && attempts >= cfg.maxAttempts) || attempts == patience + 1 {
        DefaultWaits();
        return;
      }
      waits := waits + [ApplyJitter(delay, cfg.jitter, draw(attempts - 1))];
      delay := Min(Times(cfg.multiplier)(delay), cfg.maxDelay);
    }
  }

  // Products.

  lemma ProductMonotone(k: real, a: real, b: real)
    requires k >= 0.0 && a <= b
    ensures k * a <= k * b
  {
    assert k * (b - a) >= 0.0;
  }

  lemma ProductNonNegative(a: real, b: real)
    requires a >= 0.0 && b >= 0.0
    ensures a * b >= 0.0
  {
  }

  lemma ProductPositive(a: real, b: real)
    requires a > 0.0 && b > 0.0
    ensures a * b > 0.0
  {
  }

  lemma ProductNegative(a: real, b: real)
    requires a < 0.0 < b
    ensures a * b < 0.0
  {
  }

  lemma ProductGrows(a: real, m: real)
    requires a >= 0.0 && m >= 1.0
    ensures a * m >= a
  {
    assert a * (m - 1.0) >= 0.0;
  }

  lemma ProductShrinks(a: real, m: real)
    requires a >= 0.0 && 0.0 <= m <= 1.0
    ensures 0.0 <= a * m <= a
  {
    assert a * (1.0 - m) >= 0.0;
  }

  // Capping at every step against capping once.

  ghost predicate IsMonotone(g: real -> real) {
    forall a, b :: a <= b ==> g(a) <= g(b)
  }

  /** For a monotone growth that either does not fall below the cap once there, or never exceeds it,
      capping at every step is capping once at the end. */
  lemma {:induction false} CapCommutes(g: real -> real, x: real, cap: real, n: nat)
    requires IsMonotone(g) && x <= cap
    requires g(cap) >= cap || forall k: nat :: Iterate(g, x, k) <= cap
    ensures CappedIterate(g, x, cap, n) == Min(Iterate(g, x, n), cap)
  {
    if n > 0 {
      CapCommutes(g, x, cap, n - 1);
      var y := Iterate(g, x, n - 1);
      if y > cap {
        assert g(cap) <= g(y);
      }
    }
  }

  lemma TimesIsMonotone(m: real)
    requires m >= 0.0
    ensures IsMonotone(Times(m))
  {
    forall a: real, b: real | a <= b
      ensures Times(m)(a) <= Times(m)(b)
    {
      ProductMonotone(m, a, b);
    }
  }

  lemma {:induction false} IterateIsPower(m: real, x: real, n: nat)
    ensures Iterate(Times(m), x, n) == x * Pow(m, n)
  {
    if n > 0 {
      IterateIsPower(m, x, n - 1);
      var p := Pow(m, n - 1);
      assert x * (p * m) == x * p * m;
    }
  }

  ghost predicate IsShrinking(g: real -> real) {
    forall y :: y >= 0.0 ==> 0.0 <= g(y) <= y
  }

  lemma {:induction false} IterateShrinks(g: real -> real, x: real, n: nat)
    requires x >= 0.0 && IsShrinking(g)
    ensures 0.0 <= Iterate(g, x, n) <= x
  {
    if n > 0 {
      IterateShrinks(g, x, n - 1);
    }
  }

  lemma TimesIsShrinking(m: real)
    requires 0.0 <= m <= 1.0
    ensures IsShrinking(Times(m))
  {
    forall y: real | y >= 0.0
      ensures 0.0 <= Times(m)(y) <= y
    {
      ProductShrinks(y, m);
      assert Times(m)(y) == y * m;
    }
  }

  /** Multiplication is a growth of the kind that commutes with the cap. */
  lemma TimesCommutes(m: real, x: real, cap: real)
    requires 0.0 < x <= cap && m >= 0.0
    ensures IsMonotone(Times(m))
    ensures Times(m)(cap) >= cap || forall k: nat :: Iterate(Times(m), x, k) <= cap
  {
    TimesIsMonotone(m);
    if m >= 1.0 {
      ProductGrows(cap, m);
    } else {
      TimesIsShrinking(m);
      forall k: nat
        ensures Iterate(Times(m), x, k) <= cap
      {
        IterateShrinks(Times(m), x, k);
      }
    }
  }

  lemma LoopIsCapped(cfg: Config, n: nat)
    requires 0.0 < cfg.initialDelay <= cfg.maxDelay && cfg.multiplier >= 0.0
    ensures LoopDelay(cfg, n) == Min(Iterate(Times(cfg.multiplier), cfg.initialDelay, n), cfg.maxDelay)
  {
    TimesCommutes(cfg.multiplier, cfg.initialDelay, cfg.maxDelay);
    CapCommutes(Times(cfg.multiplier), cfg.initialDelay, cfg.maxDelay, n);
  }

  lemma ClosedIsCapped(cfg: Config, n: nat)
    ensures ClosedDelay(cfg, n) == Min(Iterate(Times(cfg.multiplier), cfg.initialDelay, n), cfg.maxDelay)
  {
    IterateIsPower(cfg.multiplier, cfg.initialDelay, n);
  }

  lemma LoopIsClosedForm(cfg: Config, n: nat)
    requires 0.0 < cfg.initialDelay <= cfg.maxDelay && cfg.multiplier >= 0.0
    ensures LoopDelay(cfg, n) == ClosedDelay(cfg, n)
  {
    LoopIsCapped(cfg, n);
    ClosedIsCapped(cfg, n);
  }

  /** By default the waits double from one second up to thirty. */
  lemma DefaultWaits()
    ensures forall n: nat :: LoopDelay(DEFAULT, n) == Min(Pow(2.0, n), 30.0)
    ensures DEFAULT.jitter == 0.2 && DEFAULT.maxAttempts == 0
  {
    forall n: nat
      ensures LoopDelay(DEFAULT, n) == Min(Pow(2.0, n), 30.0)
    {
      LoopIsClosedForm(DEFAULT, n);
    }
  }

  /** The loop's delays are those of NextDelay exactly when the initial delay is within the cap; otherwise
      the very first wait differs, since the loop does not cap it. */
  lemma LoopMatchesNextDelayIff(cfg: Config)
    requires 0.0 < cfg.initialDelay && cfg.multiplier >= 0.0
    ensures (forall n: nat :: LoopDelay(cfg, n) == ClosedDelay(cfg, n)) <==> cfg.initialDelay <= cfg.maxDelay
  {
    if cfg.initialDelay <= cfg.maxDelay {
      forall n: nat
        ensures LoopDelay(cfg, n) == ClosedDelay(cfg, n)
      {
        LoopIsClosedForm(cfg, n);
      }
    } else {
      assert LoopDelay(cfg, 0) != ClosedDelay(cfg, 0);
    }
  }

  /** Delays never decrease and never exceed the cap. */
  lemma {:induction false} DelaysGrow(cfg: Config, n: nat)
    requires 0.0 < cfg.initialDelay <= cfg.maxDelay && cfg.multiplier >= 1.0
    ensures 0.0 < LoopDelay(cfg, n) <= LoopDelay(cfg, n + 1) <= cfg.maxDelay
  {
    if n > 0 {
      DelaysGrow(cfg, n - 1);
    }
    ProductGrows(LoopDelay(cfg, n), cfg.multiplier);
  }

  // Jitter.

  /** The draw `r` in [0, 1) takes `lo` to `wait` within `width`. */
  predicate Draws(lo: real, width: real, r: real, wait: real) {
    0.0 <= r < 1.0 && lo + r * width == wait
  }

  lemma Fraction(a: real, width: real)
    requires 0.0 <= a < width
    ensures 0.0 <= a / width < 1.0 && (a / width) * width == a
  {
    var r := a / width;
    assert r * width == a;
    if r >= 1.0 {
      ProductMonotone(width, 1.0, r);
    }
    if r < 0.0 {
      ProductNegative(r, width);
    }
  }

  lemma DrawStaysWithin(lo: real, width: real, r: real, wait: real)
    requires width > 0.0 && Draws(lo, width, r, wait)
    ensures lo <= wait < lo + width
  {
    ProductNonNegative(r, width);
    ProductPositive(1.0 - r, width);
    assert (1.0 - r) * width == width - r * width;
  }

  lemma DrawReaches(lo: real, width: real, wait: real) returns (r: real)
    requires lo <= wait < lo + width
    ensures Draws(lo, width, r, wait)
  {
    r := (wait - lo) / width;
    Fraction(wait - lo, width);
  }

  lemma JitterInterpolates(d: real, j: real, r: real)
    requires j > 0.0
    ensures ApplyJitter(d, j, r) == (d - d * j) + r * (2.0 * (d * j))
  {
    var delta := d * j;
    assert (d + delta) - (d - delta) == 2.0 * delta;
  }

  /** `wait` is what some draw makes of the delay. */
  ghost predicate IsWait(d: real, j: real, wait: real) {
    exists r :: IsDraw(r) && ApplyJitter(d, j, r) == wait
  }

  predicate IsDraw(r: real) {
    0.0 <= r < 1.0
  }

  /** Exactly which waits jitter makes of a delay: all those from (1 - j) times up to (1 + j) times it. */
  lemma WaitsAreTheWholeRange(d: real, j: real, wait: real)
    requires d > 0.0 && j > 0.0
    ensures IsWait(d, j, wait) <==> d - d * j <= wait < d + d * j
  {
    ProductPositive(d, j);
    var lo, width := d - d * j, 2.0 * (d * j);
    if IsWait(d, j, wait) {
      var r :| IsDraw(r) && ApplyJitter(d, j, r) == wait;
      JitterInterpolates(d, j, r);
      DrawStaysWithin(lo, width, r, wait);
    }
    if lo <= wait < lo + width {
      var r := DrawReaches(lo, width, wait);
      JitterInterpolates(d, j, r);
      assert IsDraw(r);
    }
  }

  lemma NoJitter(d: real, j: real, r: real)
    requires j <= 0.0
    ensures ApplyJitter(d, j, r) == d
  {
  }

  lemma JitterBounds(d: real, j: real, r: real)
    requires d >= 0.0 && 0.0 <= j <= 1.0 && 0.0 <= r < 1.0
    ensures (1.0 - j) * d <= ApplyJitter(d, j, r) <= (1.0 + j) * d
  {
    var delta := d * j;
    assert delta >= 0.0;
    assert 0.0 <= r * (2.0 * delta) <= 2.0 * delta by {
      ProductShrinks(2.0 * delta, r);
    }
    assert ApplyJitter(d, j, r) == d - delta + r * (2.0 * delta);
  }

  lemma Widen(wait: real, d: real, cap: real, j: real)
    requires 0.0 <= d <= cap && 0.0 <= j <= 1.0 && (1.0 - j) * d <= wait <= (1.0 + j) * d
    ensures 0.0 <= wait <= (1.0 + j) * cap
  {
    ProductMonotone(1.0 + j, d, cap);
    ProductNonNegative(1.0 - j, d);
  }

  /** Every wait of the loop is the one NextDelay gives for the same draw. */
  lemma WaitIsNextDelay(cfg: Config, n: nat, r: real)
    requires 0.0 < cfg.initialDelay <= cfg.maxDelay && cfg.multiplier >= 0.0
    ensures ApplyJitter(LoopDelay(cfg, n), cfg.jitter, r) == NextDelay(cfg, n, r)
  {
    LoopIsClosedForm(cfg, n);
  }

  /** And it is never above (1 + jitter) times the cap. */
  lemma WaitIsBounded(cfg: Config, n: nat, r: real)
    requires 0.0 < cfg.initialDelay <= cfg.maxDelay && cfg.multiplier >= 1.0
    requires 0.0 <= cfg.jitter <= 1.0 && 0.0 <= r < 1.0
    ensures 0.0 <= ApplyJitter(LoopDelay(cfg, n), cfg.jitter, r) <= (1.0 + cfg.jitter) * cfg.maxDelay
  {
    var d := LoopDelay(cfg, n);
    assert 0.0 <= d <= cfg.maxDelay by { DelaysGrow(cfg, n); }
    JitterBounds(d, cfg.jitter, r);
    Widen(ApplyJitter(d, cfg.jitter, r), d, cfg.maxDelay, cfg.jitter);
  }
}
