/** Options and the pool limits of internal/pool/pool.go. */
module Limits {

  datatype Option<+T> = None | Some(value: T)

  /** Upstream addresses are opaque keys. */
  type Addr = nat

  /** `max` is maxUpstreamConnectionsPerHost; `idleTimeout` is in nanoseconds. */
  datatype Config = Config(max: int, idleTimeout: int)

  const SECOND := 1_000_000_000
  const DEFAULT_CONFIG := Config(100, 45 * SECOND)

  predicate IsInt32(n: int) {
    -0x8000_0000 <= n < 0x8000_0000
  }

  /** Go's conversion of a 64-bit int to int32: keep the low 32 bits, as a signed number. */
  function ToInt32(n: int): (r: int)
    ensures IsInt32(r)
    ensures IsInt32(n) ==> r == n
    ensures n >= 0 ==> r <= n
  {
    if IsInt32(n) then n else (n + 0x8000_0000) % 0x1_0000_0000 - 0x8000_0000
  }

  /** The conversion changes a number only by multiples of 2^32: with the range above this fixes the result. */
  lemma {:induction false} ToInt32KeepsLowBits(n: int)
    ensures (n - ToInt32(n)) % 0x1_0000_0000 == 0
  {
    if !IsInt32(n) {
      var q := (n + 0x8000_0000) / 0x1_0000_0000;
      assert n - ToInt32(n) == q * 0x1_0000_0000;
    }
  }

  /** The number dialNew compares the counter with. */
  function DialLimit(cfg: Config): int {
    ToInt32(cfg.max)
  }

  /** What the setters let a configuration be. */
  ghost predicate ValidConfig(cfg: Config) {
    cfg.max >= 1 && cfg.idleTimeout >= SECOND
  }

  /** The package variables and their setters. */
  class Settings {
    var cfg: Config

    constructor ()
      ensures cfg == Config(100, 45_000_000_000) && ValidConfig(cfg)
    {
      cfg := DEFAULT_CONFIG;
    }

    method MaxConnectionsPerHost(n: int)
      requires ValidConfig(cfg)
      modifies this
      ensures ValidConfig(cfg)
      ensures cfg == old(cfg).(max := if n < 1 then old(cfg.max) else n)
    {
      if n < 1 {
        return;
      }
      cfg := cfg.(max := n);
    }

    method IdleTimeout(d: int)
      requires ValidConfig(cfg)
      modifies this
      ensures ValidConfig(cfg)
      ensures cfg == old(cfg).(idleTimeout := if d < 1_000_000_000 then old(cfg.idleTimeout) else d)
    {
      if d < SECOND {
        return;
      }
      cfg := cfg.(idleTimeout := d);
    }
  }

  /** The cast keeps the configured limit exactly when it fits in 31 bits; it never raises it. */
  lemma {:induction false} DialLimitMeetsMax(cfg: Config)
    requires ValidConfig(cfg)
    ensures DialLimit(cfg) <= cfg.max
    ensures DialLimit(cfg) == cfg.max <==> cfg.max < 0x8000_0000
    ensures IsInt32(DialLimit(cfg)) && (cfg.max - DialLimit(cfg)) % 0x1_0000_0000 == 0
  {
    ToInt32KeepsLowBits(cfg.max);
  }
}
