/**
 * The default behaviour every sensor inherits: its reported status and the
 * range checks of the humidity and light interfaces.
 */
module SensorInterface {

  datatype SensorStatus = Ok | WarmingUp | Calibrating | Error | NotConnected | OutOfRange

  /** `ISensor::getStatus`: uninitialised beats unhealthy, which beats OK. */
  function StatusOf(initialized: bool, healthy: bool): (s: SensorStatus)
    ensures !initialized ==> s == NotConnected
    ensures initialized && !healthy ==> s == Error
    ensures initialized && healthy ==> s == Ok
  {
    if !initialized then NotConnected
    else if !healthy then Error
    else Ok
  }

  /** The default status is never one of the three states only a sensor of its own can report. */
  lemma StatusNeverTransient(initialized: bool, healthy: bool)
    ensures StatusOf(initialized, healthy) in {Ok, Error, NotConnected}
    ensures StatusOf(initialized, healthy) == Ok <==> initialized && healthy
  {
  }

  /** `IHumiditySensor::isHumidityValid`: a relative humidity in [0, 100], both ends included. */
  predicate HumidityValid(humidity: real)
  {
    0.0 <= humidity <= 100.0
  }

  const DefaultDarkThresholdLux: real := 10.0

  /** `ILightSensor::isDark`: strictly below the threshold. */
  predicate IsDark(lux: real, thresholdLux: real)
  {
    lux < thresholdLux
  }

  lemma RangeChecksAtBoundaries()
    ensures HumidityValid(0.0) && HumidityValid(100.0)
    ensures !HumidityValid(-0.5) && !HumidityValid(100.5)
    ensures !IsDark(DefaultDarkThresholdLux, DefaultDarkThresholdLux)
    ensures IsDark(9.5, DefaultDarkThresholdLux)
  {
  }
}
