/** The artificial delay injected into computation and network steps:
    whether it is on, which distribution it follows, the delay one call
    computes from a random draw, and the description it reports. The
    random generators themselves are not modelled: `draw` is the value the
    distribution's generator returned. */
module Delay {
  import opened Wrappers

  /** The members of the configuration dictionary, each possibly absent. */
  datatype DelayConfig = DelayConfig(
    enabled: Option<bool>,
    delayType: Option<string>,
    value: Option<real>,
    mean: Option<real>,
    stdDev: Option<real>,
    min: Option<real>,
    max: Option<real>)

  /** `DelayType`. */
  datatype DelayType = NoDelay | Static | Gaussian | Uniform | Exponential

  /** `DelayType(s)`: the member whose value is `s`, otherwise ValueError. */
  function ParseDelayType(s: string): (r: Result<DelayType>)
    ensures r.Err? <==> s !in {"none", "static", "gaussian", "uniform", "exponential"}
    ensures r.Err? ==> r.error == ValueError
    ensures r.Ok? ==> TypeName(r.value) == s
  {
    if s == "none" then Ok(NoDelay)
    else if s == "static" then Ok(Static)
    else if s == "gaussian" then Ok(Gaussian)
    else if s == "uniform" then Ok(Uniform)
    else if s == "exponential" then Ok(Exponential)
    else Err(ValueError)
  }

  /** The value of a `DelayType` member. */
  function TypeName(t: DelayType): string {
    match t
    case NoDelay => "none"
    case Static => "static"
    case Gaussian => "gaussian"
    case Uniform => "uniform"
    case Exponential => "exponential"
  }

  /** Every member is parsed back from its value. */
  lemma ParseTypeName(t: DelayType)
    ensures ParseDelayType(TypeName(t)) == Ok(t)
  {
  }

  /** A simulator: its configuration (empty when none was given), whether
      it is on, and its delay type. */
  datatype DelaySimulator = DelaySimulator(config: DelayConfig, enabled: bool, delayType: DelayType)

  const EmptyConfig := DelayConfig(None, None, None, None, None, None, None)

  /** `DelaySimulator(config)`: on only when a configuration is given and
      its "enabled" member is true; the type ("none" by default) is only
      read, and only then can an unknown type raise ValueError. */
  function NewDelaySimulator(config: Option<DelayConfig>): (r: Result<DelaySimulator>)
    ensures config.None? ==> r == Ok(DelaySimulator(EmptyConfig, false, NoDelay))
    ensures config.Some? && config.value.enabled != Some(true) ==>
              r == Ok(DelaySimulator(config.value, false, NoDelay))
    ensures config.Some? && config.value.enabled == Some(true) ==>
              r == (var t := ParseDelayType(config.value.delayType.GetOr("none"));
                    if t.Err? then Err(ValueError) else Ok(DelaySimulator(config.value, true, t.value)))
  {
    match config
    case None => Ok(DelaySimulator(EmptyConfig, false, NoDelay))
    case Some(c) =>
      if c.enabled == Some(true) then
        var t :- ParseDelayType(c.delayType.GetOr("none"));
        Ok(DelaySimulator(c, true, t))
      else Ok(DelaySimulator(c, false, NoDelay))
  }

  /** An enabled simulator's type is the configured one; a missing type
      means no delay; an unknown one is refused. */
  lemma NewSimulatorType(c: DelayConfig)
    requires c.enabled == Some(true)
    ensures NewDelaySimulator(Some(c)).Ok? <==>
              c.delayType.None? || c.delayType.value in {"none", "static", "gaussian", "uniform", "exponential"}
    ensures NewDelaySimulator(Some(c)).Ok? ==>
              TypeName(NewDelaySimulator(Some(c)).value.delayType) == c.delayType.GetOr("none")
  {
  }

  /** Every simulator the constructor builds is off exactly when its type
      is NONE or it was not enabled. */
  lemma DisabledMeansNoDelay(config: Option<DelayConfig>)
    requires NewDelaySimulator(config).Ok?
    ensures !NewDelaySimulator(config).value.enabled ==> NewDelaySimulator(config).value.delayType == NoDelay
  {
  }

  /** `_calculate_delay()`: the static value (0 by default), a gaussian
      draw cut at 0, a uniform draw, an exponential draw when the mean is
      positive and 0 otherwise, and 0 for type NONE. */
  function CalculateDelay(sim: DelaySimulator, draw: real): (delay: real)
    ensures sim.delayType == Static ==> delay == sim.config.value.GetOr(0.0)
    ensures sim.delayType == Gaussian ==> delay >= 0.0 && (draw >= 0.0 ==> delay == draw)
                                          && (draw < 0.0 ==> delay == 0.0)
    ensures sim.delayType == Uniform ==> delay == draw
    ensures sim.delayType == Exponential ==>
              delay == if sim.config.mean.GetOr(0.0) > 0.0 then draw else 0.0
    ensures sim.delayType == NoDelay ==> delay == 0.0
  {
    match sim.delayType
    case Static => sim.config.value.GetOr(0.0)
    case Gaussian => if 0.0 >= draw then 0.0 else draw
    case Uniform => draw
    case Exponential => if sim.config.mean.GetOr(0.0) > 0.0 then draw else 0.0
    case NoDelay => 0.0
  }

  /** What one `apply_delay()` does: the delay it returns, and the sleep it
      asks for, if any. */
  datatype Applied = Applied(delay: real, sleep: Option<real>)

  /** `apply_delay()`: nothing for a disabled simulator or type NONE;
      otherwise the computed delay, slept only when positive. */
  function ApplyDelay(sim: DelaySimulator, draw: real): (a: Applied)
    ensures !sim.enabled || sim.delayType == NoDelay ==> a == Applied(0.0, None)
    ensures sim.enabled && sim.delayType != NoDelay ==> a.delay == CalculateDelay(sim, draw)
    ensures a.sleep.Some? <==> a.delay > 0.0
    ensures a.sleep.Some? ==> a.sleep.value == a.delay
  {
    if !sim.enabled || sim.delayType == NoDelay then Applied(0.0, None)
    else
      var delay := CalculateDelay(sim, draw);
      Applied(delay, if delay > 0.0 then Some(delay) else None)
  }

  /** A gaussian delay never makes the caller wait a negative time, and an
      exponential one with a non-positive mean never waits at all. */
  lemma AppliedDelayBounds(sim: DelaySimulator, draw: real)
    ensures sim.delayType == Gaussian ==> ApplyDelay(sim, draw).delay >= 0.0
    ensures sim.delayType == Exponential && sim.config.mean.GetOr(0.0) <= 0.0 ==>
              ApplyDelay(sim, draw) == Applied(0.0, None)
  {
  }

  /** `get_delay_info()`, with the numbers it formats (milliseconds, and
      the exponential rate) instead of the formatted text. */
  datatype DelayInfo =
    | NoDelayInfo
    | StaticInfo(valueMs: real)
    | GaussianInfo(meanMs: real, stdDevMs: real)
    | UniformInfo(minMs: real, maxMs: real)
    | ExponentialInfo(rate: real, meanMs: real)

  /** The text of the disabled case. */
  const NoDelayText: string := "No delay"

  function InfoText(info: DelayInfo): (s: Option<string>)
    ensures s.Some? <==> info.NoDelayInfo?
    ensures info.NoDelayInfo? ==> s == Some(NoDelayText)
  {
    if info.NoDelayInfo? then Some(NoDelayText) else None
  }

  function GetDelayInfo(sim: DelaySimulator): (info: DelayInfo)
    ensures info.NoDelayInfo? <==> !sim.enabled || sim.delayType == NoDelay
    ensures sim.enabled && sim.delayType == Static ==>
              info == StaticInfo(sim.config.value.GetOr(0.0) * 1000.0)
    ensures sim.enabled && sim.delayType == Gaussian ==>
              info == GaussianInfo(sim.config.mean.GetOr(0.0) * 1000.0, sim.config.stdDev.GetOr(0.0) * 1000.0)
    ensures sim.enabled && sim.delayType == Uniform ==>
              info == UniformInfo(sim.config.min.GetOr(0.0) * 1000.0, sim.config.max.GetOr(0.0) * 1000.0)
    ensures sim.enabled && sim.delayType == Exponential ==>
              var mean := sim.config.mean.GetOr(0.0);
              && info.ExponentialInfo?
              && info.meanMs == mean * 1000.0
              && (mean > 0.0 ==> info.rate * mean == 1.0)
              && (mean <= 0.0 ==> info.rate == 0.0)
  {
    if !sim.enabled || sim.delayType == NoDelay then NoDelayInfo
    else
      var c := sim.config;
      match sim.delayType
      case Static => StaticInfo(c.value.GetOr(0.0) * 1000.0)
      case Gaussian => GaussianInfo(c.mean.GetOr(0.0) * 1000.0, c.stdDev.GetOr(0.0) * 1000.0)
      case Uniform => UniformInfo(c.min.GetOr(0.0) * 1000.0, c.max.GetOr(0.0) * 1000.0)
      case Exponential =>
        var mean := c.mean.GetOr(0.0);
        ExponentialInfo(if mean > 0.0 then 1.0 / mean else 0.0, mean * 1000.0)
  }

  /** A simulator that applies no delay describes itself as "No delay",
      and one that describes itself so applies none. */
  lemma NoDelayIffDescribed(sim: DelaySimulator, draw: real)
    ensures InfoText(GetDelayInfo(sim)) == Some(NoDelayText) <==> !sim.enabled || sim.delayType == NoDelay
    ensures InfoText(GetDelayInfo(sim)) == Some(NoDelayText) ==> ApplyDelay(sim, draw) == Applied(0.0, None)
  {
  }
}
