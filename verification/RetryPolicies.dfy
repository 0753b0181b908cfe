/** The retry settings of a check: merging two levels of configuration into a validated policy. */
module RetryPolicies {
  import opened Common

  datatype CheckRetries = CheckRetries(
    delay: Option<Duration>,
    timeout: Option<Duration>,
    interval: Option<Duration>,
    maxRetries: Option<int>,
    disabled: Option<bool>)

  const DEFAULT_CHECK_RETRY_INTERVAL := 1_000_000_000

  datatype PolicyError =
    | BadDelay | BadTimeout | BadInterval
    | NegativeDelay | NegativeTimeout | NegativeInterval | NegativeMaxRetries
    | ZeroIntervalWithTimeout

  datatype RetryPolicy = RetryPolicy(
    configured: bool, disabled: bool, delay: int, timeout: int, interval: int, maxRetries: Option<int>)
  {
    predicate RetryEnabled() {
      !disabled && ((maxRetries.Some? && maxRetries.value > 0) || timeout > 0)
    }

    /** Whether another attempt may follow, `elapsed` after the start of the first one. */
    predicate CanRetry(attempts: int, elapsed: int) {
      && RetryEnabled()
      && !(maxRetries.Some? && attempts - 1 >= maxRetries.value)
      && !(timeout > 0 && elapsed >= timeout)
    }

    function NextInterval(elapsed: int): (pause: int)
      ensures timeout > 0 && interval > 0 && elapsed < timeout
        ==> 0 < pause <= interval && elapsed + pause <= timeout && (pause < interval ==> elapsed + pause == timeout)
      ensures timeout <= 0 ==> pause == interval
      ensures timeout > 0 && elapsed >= timeout ==> pause == 0
    {
      if timeout <= 0 then interval
      else
        var remaining := timeout - elapsed;
        if remaining <= 0 then 0
        else if interval <= 0 || interval > remaining then remaining
        else interval
    }

    /** What validation guarantees of a policy that will be used for retrying. */
    ghost predicate Sound() {
      && delay >= 0
      && timeout >= 0
      && interval >= 0
      && (!disabled && maxRetries.Some? ==> maxRetries.value >= 0)
      && (!disabled && timeout > 0 ==> interval > 0)
    }

    /** The most attempts the policy ever allows: one plus the smaller of its two budgets. */
    ghost function AttemptBound(): (bound: nat)
      requires Sound()
      ensures bound >= 1
      ensures maxRetries.Some? && bound > 1 ==> bound <= maxRetries.value + 1
      ensures timeout > 0 && bound > 1 ==> (bound - 2) * interval < timeout
      ensures disabled || ((maxRetries.None? || maxRetries.value == 0) && timeout == 0) ==> bound == 1
    {
      if !RetryEnabled() then 1
      else if timeout == 0 then maxRetries.value + 1
      else if maxRetries.None? then Ceiling(timeout, interval) + 1
      else Min(maxRetries.value, Ceiling(timeout, interval)) + 1
    }
  }

  function Min(a: int, b: int): int {
    if a <= b then a else b
  }

  function Ceiling(a: int, b: int): nat
    requires a > 0 && b > 0
  {
    1 + (a - 1) / b
  }

  /** A check-level setting wins over the canary-level one, field by field. */
  function Prefer<T>(override: Option<T>, default: Option<T>): Option<T> {
    if override.Some? then override else default
  }

  const NO_RETRIES := CheckRetries(None, None, None, None, None)

  function OrEmpty(config: Option<CheckRetries>): CheckRetries {
    if config.Some? then config.value else NO_RETRIES
  }

  /** The settings in force when two levels are merged; nothing configured at either level means no retries. */
  function Effective(defaults: Option<CheckRetries>, override: Option<CheckRetries>): Option<CheckRetries> {
    if defaults.None? && override.None? then None
    else
      var d, o := OrEmpty(defaults), OrEmpty(override);
      Some(CheckRetries(Prefer(o.delay, d.delay), Prefer(o.timeout, d.timeout), Prefer(o.interval, d.interval),
                        Prefer(o.maxRetries, d.maxRetries), Prefer(o.disabled, d.disabled)))
  }

  method MergeCheckRetries(defaults: Option<CheckRetries>, override: Option<CheckRetries>)
    returns (result: Option<CheckRetries>)
    ensures result == Effective(defaults, override)
  {
    if defaults.None? && override.None? {
      return None;
    }
    var merged := NO_RETRIES;
    if defaults.Some? {
      merged := defaults.value;
    }
    if override.Some? {
      if override.value.delay.Some? {
        merged := merged.(delay := override.value.delay);
      }
      if override.value.timeout.Some? {
        merged := merged.(timeout := override.value.timeout);
      }
      if override.value.interval.Some? {
        merged := merged.(interval := override.value.interval);
      }
      if override.value.maxRetries.Some? {
        merged := merged.(maxRetries := override.value.maxRetries);
      }
      if override.value.disabled.Some? {
        merged := merged.(disabled := override.value.disabled);
      }
    }
    result := Some(merged);
  }

  function NanosOrZero(d: Option<Duration>): int {
    if d.Some? && d.value.Parsed? then d.value.nanos else 0
  }

  method GetDurationOrZero(d: Option<Duration>) returns (nanos: int, ok: bool)
    ensures ok == Readable(d) && nanos == NanosOrZero(d)
  {
    if d.None? {
      return 0, true;
    }
    match d.value
    case Parsed(n) => nanos, ok := n, true;
    case Malformed => nanos, ok := 0, false;
  }

  /** The configurations that validation lets through. */
  ghost predicate Acceptable(config: CheckRetries) {
    config.disabled == Some(true) || (
      && Readable(config.delay) && Readable(config.timeout) && Readable(config.interval)
      && NanosOrZero(config.delay) >= 0 && NanosOrZero(config.timeout) >= 0 && NanosOrZero(config.interval) >= 0
      && (config.maxRetries.Some? ==> config.maxRetries.value >= 0)
      && (NanosOrZero(config.timeout) > 0 && config.interval.Some? ==> NanosOrZero(config.interval) > 0)
    )
  }

  /** The policy that an accepted, not disabled configuration stands for. */
  ghost predicate Represents(policy: RetryPolicy, config: CheckRetries) {
    && policy.configured && !policy.disabled
    && policy.delay == NanosOrZero(config.delay)
    && policy.timeout == NanosOrZero(config.timeout)
    && policy.maxRetries == config.maxRetries
    && (config.interval.Some? ==> policy.interval == NanosOrZero(config.interval))
    && (config.interval.None? ==> policy.interval == if policy.RetryEnabled() then DEFAULT_CHECK_RETRY_INTERVAL else 0)
  }

  /** A rejection names a defect that the configuration has. */
  ghost predicate Justified(error: PolicyError, config: CheckRetries) {
    match error
    case BadDelay => !Readable(config.delay)
    case BadTimeout => !Readable(config.timeout)
    case BadInterval => !Readable(config.interval)
    case NegativeDelay => NanosOrZero(config.delay) < 0
    case NegativeTimeout => NanosOrZero(config.timeout) < 0
    case NegativeInterval => NanosOrZero(config.interval) < 0
    case NegativeMaxRetries => config.maxRetries.Some? && config.maxRetries.value < 0
    case ZeroIntervalWithTimeout =>
      NanosOrZero(config.timeout) > 0 && config.interval.Some? && NanosOrZero(config.interval) == 0
  }

  /** Validation accepts exactly the acceptable configurations, and what it accepts is sound. */
  method NewRetryPolicy(config: Option<CheckRetries>) returns (result: Result<RetryPolicy, PolicyError>)
    ensures result.Ok? <==> config.None? || Acceptable(config.value)
    ensures result.Ok? ==> result.value.Sound()
    ensures result.Ok? && config.None? ==> result.value == RetryPolicy(false, false, 0, 0, 0, None)
    ensures result.Ok? && config.Some? && config.value.disabled == Some(true) ==> result.value.disabled
    ensures result.Ok? && config.Some? && config.value.disabled != Some(true) ==> Represents(result.value, config.value)
    ensures result.Err? ==> Justified(result.error, config.value)
  {
    if config.None? {
      return Ok(RetryPolicy(false, false, 0, 0, 0, None));
    }
    var c := config.value;
    var policy := RetryPolicy(true, false, 0, 0, 0, c.maxRetries);
    if c.disabled.Some? {
      policy := policy.(disabled := c.disabled.value);
    }
    if policy.disabled {
      return Ok(policy);
    }
    var nanos, ok := GetDurationOrZero(c.delay);
    if !ok {
      return Err(BadDelay);
    }
    policy := policy.(delay := nanos);
    nanos, ok := GetDurationOrZero(c.timeout);
    if !ok {
      return Err(BadTimeout);
    }
    policy := policy.(timeout := nanos);
    nanos, ok := GetDurationOrZero(c.interval);
    if !ok {
      return Err(BadInterval);
    }
    policy := policy.(interval := nanos);
    if policy.delay < 0 {
      return Err(NegativeDelay);
    }
    if policy.timeout < 0 {
      return Err(NegativeTimeout);
    }
    if policy.interval < 0 {
      return Err(NegativeInterval);
    }
    if policy.maxRetries.Some? && policy.maxRetries.value < 0 {
      return Err(NegativeMaxRetries);
    }
    if policy.timeout > 0 && c.interval.Some? && policy.interval == 0 {
      return Err(ZeroIntervalWithTimeout);
    }
    if policy.RetryEnabled() && policy.interval == 0 && c.interval.None? {
      policy := policy.(interval := DEFAULT_CHECK_RETRY_INTERVAL);
    }
    result := Ok(policy);
  }

  // ---------------------------------------------------------------- both levels together

  ghost predicate AcceptedTogether(defaults: Option<CheckRetries>, override: Option<CheckRetries>) {
    var c := Effective(defaults, override);
    c.None? || Acceptable(c.value)
  }

  ghost predicate DisabledTogether(defaults: Option<CheckRetries>, override: Option<CheckRetries>) {
    var c := Effective(defaults, override);
    c.Some? && c.value.disabled == Some(true)
  }

  /** `policy` is the one that the two levels stand for together. */
  ghost predicate MergedPolicy(policy: RetryPolicy, defaults: Option<CheckRetries>, override: Option<CheckRetries>) {
    && policy.Sound()
    && AcceptedTogether(defaults, override) && !DisabledTogether(defaults, override)
    && var c := Effective(defaults, override);
    if c.None? then policy == RetryPolicy(false, false, 0, 0, 0, None) else Represents(policy, c.value)
  }

  /** The most attempts that the two levels of settings allow, computed from the settings alone. */
  ghost function SettingsBound(defaults: Option<CheckRetries>, override: Option<CheckRetries>): (bound: nat)
    ensures forall policy :: MergedPolicy(policy, defaults, override) ==> policy.AttemptBound() == bound
    ensures !DisabledTogether(defaults, override) && AcceptedTogether(defaults, override) ==> bound >= 1
  {
    var c := Effective(defaults, override);
    if !AcceptedTogether(defaults, override) then 0
    else if c.None? || DisabledTogether(defaults, override) then 1
    else
      var interval := if c.value.interval.Some? then NanosOrZero(c.value.interval) else DEFAULT_CHECK_RETRY_INTERVAL;
      RetryPolicy(true, false, 0, NanosOrZero(c.value.timeout), interval, c.value.maxRetries).AttemptBound()
  }

  // ---------------------------------------------------------------- both levels, field by field

  /** The check's setting if it has one, and otherwise the canary's. */
  function MaxRetriesOf(defaults: Option<CheckRetries>, override: Option<CheckRetries>): Option<int> {
    if override.Some? && override.value.maxRetries.Some? then override.value.maxRetries
    else if defaults.Some? then defaults.value.maxRetries
    else None
  }

  function TimeoutOf(defaults: Option<CheckRetries>, override: Option<CheckRetries>): int {
    if override.Some? && override.value.timeout.Some? then Nanos(override.value.timeout)
    else if defaults.Some? then Nanos(defaults.value.timeout)
    else 0
  }

  function DelayOf(defaults: Option<CheckRetries>, override: Option<CheckRetries>): int {
    if override.Some? && override.value.delay.Some? then Nanos(override.value.delay)
    else if defaults.Some? then Nanos(defaults.value.delay)
    else 0
  }

  /** The interval that is set, or one second. */
  function IntervalOf(defaults: Option<CheckRetries>, override: Option<CheckRetries>): int {
    if override.Some? && override.value.interval.Some? then Nanos(override.value.interval)
    else if defaults.Some? && defaults.value.interval.Some? then Nanos(defaults.value.interval)
    else 1_000_000_000
  }

  function Nanos(d: Option<Duration>): int {
    match d
    case Some(Parsed(nanos)) => nanos
    case _ => 0
  }

  /** No retries are asked for: no positive number of them, and no time for them. */
  predicate AsksForNone(defaults: Option<CheckRetries>, override: Option<CheckRetries>) {
    && TimeoutOf(defaults, override) == 0
    && (MaxRetriesOf(defaults, override).None? || MaxRetriesOf(defaults, override).value == 0)
  }

  /** The merged policy has the settings of both levels. */
  lemma MergedInFields(policy: RetryPolicy, defaults: Option<CheckRetries>, override: Option<CheckRetries>)
    requires MergedPolicy(policy, defaults, override)
    ensures !policy.disabled && policy.maxRetries == MaxRetriesOf(defaults, override)
    ensures policy.timeout == TimeoutOf(defaults, override) >= 0 && policy.delay == DelayOf(defaults, override)
    ensures !AsksForNone(defaults, override) ==> policy.interval == IntervalOf(defaults, override)
  {
  }

  /** The setting of the check if it has one, and otherwise of the canary. */
  function DelaySet(defaults: Option<CheckRetries>, override: Option<CheckRetries>): Option<Duration> {
    if override.Some? && override.value.delay.Some? then override.value.delay
    else if defaults.Some? then defaults.value.delay
    else None
  }

  function TimeoutSet(defaults: Option<CheckRetries>, override: Option<CheckRetries>): Option<Duration> {
    if override.Some? && override.value.timeout.Some? then override.value.timeout
    else if defaults.Some? then defaults.value.timeout
    else None
  }

  function IntervalSet(defaults: Option<CheckRetries>, override: Option<CheckRetries>): Option<Duration> {
    if override.Some? && override.value.interval.Some? then override.value.interval
    else if defaults.Some? then defaults.value.interval
    else None
  }

  /** Which settings are accepted, and which disable retries, at the two levels. */
  lemma AcceptedInFields(defaults: Option<CheckRetries>, override: Option<CheckRetries>)
    ensures DisabledTogether(defaults, override) <==>
      if override.Some? && override.value.disabled.Some? then override.value.disabled.value
      else defaults.Some? && defaults.value.disabled == Some(true)
    ensures AcceptedTogether(defaults, override) <==>
      || DisabledTogether(defaults, override)
      || (&& DelaySet(defaults, override) != Some(Malformed) && Nanos(DelaySet(defaults, override)) >= 0
          && TimeoutSet(defaults, override) != Some(Malformed) && Nanos(TimeoutSet(defaults, override)) >= 0
          && IntervalSet(defaults, override) != Some(Malformed) && Nanos(IntervalSet(defaults, override)) >= 0
          && (MaxRetriesOf(defaults, override).Some? ==> MaxRetriesOf(defaults, override).value >= 0)
          && !(Nanos(TimeoutSet(defaults, override)) > 0 && IntervalSet(defaults, override) == Some(Parsed(0))))
  {
  }
}
