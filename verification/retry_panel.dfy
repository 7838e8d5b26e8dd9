/** The change handlers of the workflow node's retry panel
    (web/app/components/workflow/nodes/_base/components/retry/retry-on-panel.tsx).
    Each handler turns the node's current retry configuration and one user
    input into the full configuration it hands to the store. Numbers are
    integers here; a JavaScript "falsy" number is 0. */
module RetryPanel {
  import opened Base

  /** `BackoffStrategy`. */
  datatype Strategy = Fixed | Exponential

  /** `WorkflowRetryConfig` as stored on the node; the last three fields are
      optional. The multiplier is carried along, never computed with. */
  datatype RetryConfig = RetryConfig(maxRetries: int, retryInterval: int, retryEnabled: bool,
                                     backoffStrategy: Option<Strategy>, backoffMultiplier: Option<real>,
                                     maxBackoffInterval: Option<int>)

  /** The complete configuration a handler submits. */
  datatype Change = Change(retryEnabled: bool, maxRetries: int, retryInterval: int,
                           backoffStrategy: Strategy, backoffMultiplier: real, maxBackoffInterval: int)

  const DefaultMaxRetries: int := 3
  const DefaultRetryInterval: int := 1000
  const DefaultMultiplier: real := 2.0
  const DefaultMaxBackoff: int := 60000

  /** `x || d` for a number that may be absent. */
  function OrDefault(x: Option<int>, d: int): (r: int)
    ensures x.Some? && x.value != 0 ==> r == x.value
    ensures x.None? || x.value == 0 ==> r == d
  {
    if x.Some? && x.value != 0 then x.value else d
  }

  /** The field values of `retry_config?.field || default`. */
  function MaxRetriesOf(cfg: Option<RetryConfig>): int {
    OrDefault(if cfg.Some? then Some(cfg.value.maxRetries) else None, DefaultMaxRetries)
  }

  function RetryIntervalOf(cfg: Option<RetryConfig>): int {
    OrDefault(if cfg.Some? then Some(cfg.value.retryInterval) else None, DefaultRetryInterval)
  }

  function StrategyOr(cfg: Option<RetryConfig>, d: Strategy): Strategy {
    if cfg.Some? && cfg.value.backoffStrategy.Some? then cfg.value.backoffStrategy.value else d
  }

  function MultiplierOf(cfg: Option<RetryConfig>): real {
    if cfg.Some? && cfg.value.backoffMultiplier.Some? && cfg.value.backoffMultiplier.value != 0.0
    then cfg.value.backoffMultiplier.value else DefaultMultiplier
  }

  function MaxBackoffOf(cfg: Option<RetryConfig>): int {
    OrDefault(if cfg.Some? then cfg.value.maxBackoffInterval else None, DefaultMaxBackoff)
  }

  /** The strategy the panel shows: fixed unless one is set. */
  function CurrentStrategy(cfg: Option<RetryConfig>): Strategy {
    StrategyOr(cfg, Fixed)
  }

  /** The input clamped into `[lo, hi]`: over the top gives `hi`, under the
      bottom gives `lo`, anything in range is kept. */
  function Clamp(v: int, lo: int, hi: int): (r: int)
    requires lo <= hi
    ensures lo <= r <= hi
    ensures lo <= v <= hi ==> r == v
    ensures v > hi ==> r == hi
    ensures v < lo ==> r == lo
  {
    if v > hi then hi else if v < lo then lo else v
  }

  /** Clamping twice is clamping once. */
  lemma ClampIdempotent(v: int, lo: int, hi: int)
    requires lo <= hi
    ensures Clamp(Clamp(v, lo, hi), lo, hi) == Clamp(v, lo, hi)
  {
  }

  /** Every field carried over from the current configuration or defaulted,
      with retries enabled: what the handlers submit for the fields they do
      not set. */
  function Carried(cfg: Option<RetryConfig>): Change {
    Change(true, MaxRetriesOf(cfg), RetryIntervalOf(cfg), StrategyOr(cfg, Fixed),
           MultiplierOf(cfg), MaxBackoffOf(cfg))
  }

  /** The retry switch. */
  function OnRetryEnabledChange(cfg: Option<RetryConfig>, value: bool): (r: Change)
    ensures r.retryEnabled == value
    ensures r.(retryEnabled := true) == Carried(cfg)
  {
    Change(value, MaxRetriesOf(cfg), RetryIntervalOf(cfg), StrategyOr(cfg, Fixed),
           MultiplierOf(cfg), MaxBackoffOf(cfg))
  }

  /** The maximum-retries input, clamped into [1, 10]. */
  function OnMaxRetriesChange(cfg: Option<RetryConfig>, value: int): (r: Change)
    ensures 1 <= r.maxRetries <= 10
    ensures 1 <= value <= 10 ==> r.maxRetries == value
    ensures r.retryEnabled
    ensures r.(maxRetries := MaxRetriesOf(cfg)) == Carried(cfg)
  {
    Change(true, Clamp(value, 1, 10), RetryIntervalOf(cfg), StrategyOr(cfg, Fixed),
           MultiplierOf(cfg), MaxBackoffOf(cfg))
  }

  /** The retry-interval input, clamped into [100, 5000] milliseconds. */
  function OnRetryIntervalChange(cfg: Option<RetryConfig>, value: int): (r: Change)
    ensures 100 <= r.retryInterval <= 5000
    ensures 100 <= value <= 5000 ==> r.retryInterval == value
    ensures r.retryEnabled
    ensures r.(retryInterval := RetryIntervalOf(cfg)) == Carried(cfg)
  {
    Change(true, MaxRetriesOf(cfg), Clamp(value, 100, 5000), StrategyOr(cfg, Fixed),
           MultiplierOf(cfg), MaxBackoffOf(cfg))
  }

  /** The strategy buttons: the chosen strategy, everything else carried. */
  function OnBackoffStrategyChange(cfg: Option<RetryConfig>, strategy: Strategy): (r: Change)
    ensures r.backoffStrategy == strategy
    ensures r.retryEnabled
    ensures r.(backoffStrategy := StrategyOr(cfg, Fixed)) == Carried(cfg)
  {
    Change(true, MaxRetriesOf(cfg), RetryIntervalOf(cfg), strategy,
           MultiplierOf(cfg), MaxBackoffOf(cfg))
  }

  /** The maximum-backoff input, clamped into [1000, 60000] milliseconds.
      Unlike the other handlers it defaults an unset strategy to
      exponential. */
  function OnMaxBackoffIntervalChange(cfg: Option<RetryConfig>, value: int): (r: Change)
    ensures 1000 <= r.maxBackoffInterval <= 60000
    ensures 1000 <= value <= 60000 ==> r.maxBackoffInterval == value
    ensures r.retryEnabled
    ensures r.backoffStrategy == StrategyOr(cfg, Exponential)
    ensures r.(maxBackoffInterval := MaxBackoffOf(cfg), backoffStrategy := StrategyOr(cfg, Fixed))
            == Carried(cfg)
  {
    Change(true, MaxRetriesOf(cfg), RetryIntervalOf(cfg), StrategyOr(cfg, Exponential),
           MultiplierOf(cfg), Clamp(value, 1000, 60000))
  }

  /** With no strategy stored, the maximum-backoff handler switches the node
      to exponential backoff while every other handler keeps it fixed. */
  lemma MaxBackoffAloneSwitchesStrategy(cfg: Option<RetryConfig>, v: int, b: bool)
    requires cfg.None? || cfg.value.backoffStrategy.None?
    ensures OnMaxBackoffIntervalChange(cfg, v).backoffStrategy == Exponential
    ensures OnRetryEnabledChange(cfg, b).backoffStrategy == Fixed
    ensures OnMaxRetriesChange(cfg, v).backoffStrategy == Fixed
    ensures OnRetryIntervalChange(cfg, v).backoffStrategy == Fixed
    ensures CurrentStrategy(cfg) == Fixed
  {
  }

  /** With nothing stored, the carried fields are the documented defaults. */
  lemma DefaultsWhenUnset()
    ensures Carried(None) == Change(true, 3, 1000, Fixed, 2.0, 60000)
  {
  }
}
