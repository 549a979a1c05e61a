/**
 * The MQ-2 gas sensor behind an ADC on the I2C bus: its open/closed
 * state, the 12-bit reading, the calibration check, and the 3-of-5 vote
 * over the most recent threshold crossings.  The bus itself (`open`,
 * `ioctl`, `read`) is replaced by the values those calls return, and the
 * float curve from ADC counts to resistance and PPM by its results.
 */
module Mq2 {
  import opened Common
  import opened Window
  import SensorInterface

  /** PPM above which one reading counts as smoke. */
  const SmokeThresholdPPM: real := 200.0
  const HistoryCapacity: nat := 5
  const VotesNeeded: nat := 3

  const RoCleanAir: real := 9.83
  const CalibrationSamples: nat := 50
  /** What `getResistance` returns when the ADC cannot be read. */
  const FailedResistance: real := -1.0

  /**
   * `((b0 & 0x0F) << 8) | b1`, in arithmetic: masking keeps `b0 % 16`,
   * the shift multiplies by 256, and the OR adds `b1`, whose bits lie
   * below the shifted ones.
   */
  function Combine12(b0: Byte, b1: Byte): (value: int)
    ensures 0 <= value < 4096
    ensures value / 256 == b0 as int % 16 && value % 256 == b1 as int
  {
    (b0 as int % 16) * 256 + b1 as int
  }

  /** The upper nibble of the first byte never reaches the value, and nothing else is lost. */
  lemma Combine12Injective(b0: Byte, b1: Byte, c0: Byte, c1: Byte)
    ensures Combine12(b0, b1) == Combine12(c0, c1) <==> b0 as int % 16 == c0 as int % 16 && b1 == c1
  {
    if Combine12(b0, b1) == Combine12(c0, c1) {
      assert b1 as int == Combine12(b0, b1) % 256;
      assert c1 as int == Combine12(c0, c1) % 256;
    }
  }

  /** The number of `true` entries in a history. */
  function CountTrue(h: seq<bool>): (n: nat)
    ensures n <= |h|
  {
    if h == [] then 0 else CountTrue(h[..|h| - 1]) + (if h[|h| - 1] then 1 else 0)
  }

  /** A history of at most two entries never carries three votes. */
  lemma ShortHistoryNeverVotes(h: seq<bool>)
    requires |h| < VotesNeeded
    ensures CountTrue(h) < VotesNeeded
  {
  }

  /** Every entry true: the count is the length. */
  lemma {:induction false} CountAllTrue(h: seq<bool>)
    requires forall i :: 0 <= i < |h| ==> h[i]
    ensures CountTrue(h) == |h|
  {
    if h != [] {
      CountAllTrue(h[..|h| - 1]);
    }
  }

  /** Calibrated clean-air resistance: the mean sample divided by the clean-air ratio. */
  function CalibratedRo(samples: seq<real>): real
    requires |samples| == CalibrationSamples
  {
    Sum(samples) / CalibrationSamples as real / RoCleanAir
  }

  /** `calibrate` keeps a resistance only in (0, 50]. */
  predicate CalibrationAccepted(samples: seq<real>)
    requires |samples| == CalibrationSamples
  {
    0.0 < CalibratedRo(samples) <= 50.0
  }

  /** What calibration sees when every `getResistance` call fails. */
  function FailedSamples(): (s: seq<real>)
    ensures |s| == CalibrationSamples
    ensures forall i :: 0 <= i < |s| ==> s[i] == FailedResistance
  {
    seq(CalibrationSamples, _ => FailedResistance)
  }

  /** Fifty failed reads average to a negative resistance, which calibration refuses. */
  lemma FailedReadsRejected()
    ensures CalibratedRo(FailedSamples()) < 0.0
    ensures !CalibrationAccepted(FailedSamples())
  {
    SumAtMost(FailedSamples(), FailedResistance);
  }

  class Mq2Sensor {
    var i2cFd: int
    var initialized: bool
    /** Clean-air resistance `ro_`, in kilo-ohms. */
    var ro: real
    /** `detection_history_`: threshold crossings of the latest readings, oldest first. */
    var detectionHistory: seq<bool>

    ghost predicate Valid()
      reads this
    {
      i2cFd >= -1 && ro > 0.0 && |detectionHistory| <= HistoryCapacity
    }

    constructor()
      ensures Valid()
      ensures i2cFd == -1 && !initialized && ro == RoCleanAir && detectionHistory == []
    {
      i2cFd := -1;
      initialized := false;
      ro := RoCleanAir;
      detectionHistory := [];
    }

    /** `readAnalog`'s guard: the ADC is read only once initialised with an open bus. */
    predicate CanRead()
      reads this
    {
      initialized && i2cFd >= 0
    }

    /**
     * `readAnalog`: `read` is what the two-byte bus read returned, `None`
     * for a short read.  Failure is -1.
     */
    method ReadAnalog(read: Option<(Byte, Byte)>) returns (value: int)
      ensures value == -1 <==> !CanRead() || read.None?
      ensures value != -1 ==> value == Combine12(read.value.0, read.value.1)
      ensures -1 <= value < 4096
    {
      if !initialized || i2cFd < 0 {
        return -1;
      }
      if read.None? {
        return -1;
      }
      value := Combine12(read.value.0, read.value.1);
    }

    /**
     * `calibrate`: `resistances` are what the fifty `getResistance` calls
     * would give through a readable ADC; while `readAnalog` refuses to
     * read, each of them is -1 instead.
     */
    method Calibrate(resistances: seq<real>) returns (ok: bool)
      requires Valid() && |resistances| == CalibrationSamples
      modifies this
      ensures Valid()
      ensures var seen := if old(CanRead()) then resistances else FailedSamples();
              && ok == CalibrationAccepted(seen)
              && ro == (if ok then CalibratedRo(seen) else RoCleanAir)
      ensures i2cFd == old(i2cFd) && initialized == old(initialized)
      ensures detectionHistory == old(detectionHistory)
    {
      var canRead := initialized && i2cFd >= 0;
      ghost var seen := if canRead then resistances else FailedSamples();
      var sum := 0.0;
      var i := 0;
      while i < CalibrationSamples
        invariant 0 <= i <= CalibrationSamples
        invariant sum == Sum(seen[..i])
      {
        var rs := if canRead then resistances[i] else FailedResistance;
        assert seen[..i + 1][..i] == seen[..i];
        sum := sum + rs;
        i := i + 1;
      }
      assert seen[..CalibrationSamples] == seen;
      ro := sum / CalibrationSamples as real / RoCleanAir;
      if ro <= 0.0 || ro > 50.0 {
        ro := RoCleanAir;
        return false;
      }
      return true;
    }

    /**
     * `initialize` as written: `openResult` is what `open` returned and
     * `slaveSet` whether the `ioctl` succeeded.  Calibration runs before
     * the sensor is marked initialised, so every calibration read fails and
     * a sensor that was not already initialised never comes up.
     */
    method InitializeAsWritten(openResult: int, slaveSet: bool, resistances: seq<real>)
      returns (ok: bool)
      requires Valid() && openResult >= -1 && |resistances| == CalibrationSamples
      modifies this
      ensures Valid()
      ensures !old(initialized) ==> !ok && !initialized && !CanRead()
      ensures ok ==> initialized && i2cFd == openResult
      ensures detectionHistory == old(detectionHistory)
    {
      i2cFd := openResult;
      if i2cFd < 0 {
        return false;
      }
      if !slaveSet {
        i2cFd := -1;
        return false;
      }
      ok := Calibrate(resistances);
      if !old(initialized) {
        FailedReadsRejected();
      }
      if !ok {
        i2cFd := -1;
        return false;
      }
      initialized := true;
    }

    /**
     * `initialize` with the sensor marked initialised before it calibrates:
     * it comes up exactly when the bus opens, the address is set and the
     * calibration samples are plausible.
     */
    method Initialize(openResult: int, slaveSet: bool, resistances: seq<real>) returns (ok: bool)
      requires Valid() && openResult >= -1 && |resistances| == CalibrationSamples
      modifies this
      ensures Valid()
      ensures ok <==> openResult >= 0 && slaveSet && CalibrationAccepted(resistances)
      ensures ok ==> CanRead() && i2cFd == openResult && ro == CalibratedRo(resistances)
      ensures !ok ==> i2cFd == -1 && !CanRead()
      ensures openResult >= 0 && slaveSet && !ok ==> !initialized && ro == RoCleanAir
      ensures detectionHistory == old(detectionHistory)
    {
      i2cFd := openResult;
      if i2cFd < 0 {
        return false;
      }
      if !slaveSet {
        i2cFd := -1;
        return false;
      }
      initialized := true;
      ok := Calibrate(resistances);
      if !ok {
        initialized := false;
        i2cFd := -1;
        return false;
      }
    }

    function IsInitialized(): (b: bool)
      reads this
      ensures b == initialized
    {
      initialized
    }

    /** Healthy means initialised and the ADC answered. */
    method IsHealthy(read: Option<(Byte, Byte)>) returns (healthy: bool)
      ensures healthy <==> CanRead() && read.Some?
      ensures !initialized ==> !healthy
    {
      if !initialized {
        return false;
      }
      var value := ReadAnalog(read);
      healthy := value >= 0;
    }

    /** The inherited `getStatus`, with health decided by one ADC read. */
    method GetStatus(read: Option<(Byte, Byte)>) returns (status: SensorInterface.SensorStatus)
      ensures status == SensorInterface.StatusOf(initialized, CanRead() && read.Some?)
      ensures !initialized ==> status == SensorInterface.NotConnected
      ensures initialized && !(CanRead() && read.Some?) ==> status == SensorInterface.Error
      ensures status == SensorInterface.Ok <==> CanRead() && read.Some?
    {
      var healthy := IsHealthy(read);
      status := SensorInterface.StatusOf(IsInitialized(), healthy);
    }

    /** Closes the bus if open and marks the sensor uninitialised. */
    method Shutdown()
      requires Valid()
      modifies this
      ensures Valid()
      ensures i2cFd == -1 && !initialized && !CanRead()
      ensures ro == old(ro) && detectionHistory == old(detectionHistory)
    {
      if i2cFd >= 0 {
        i2cFd := -1;
      }
      initialized := false;
    }

    /**
     * Records whether `ppm` crossed the threshold, keeps the five latest
     * records, and reports smoke when at least three of them crossed it.
     */
    method DetectSmoke(ppm: real) returns (detected: bool)
      requires Valid()
      modifies this
      ensures Valid()
      ensures detectionHistory == PushBounded(old(detectionHistory), ppm > SmokeThresholdPPM, HistoryCapacity)
      ensures detected <==> CountTrue(detectionHistory) >= VotesNeeded
      ensures i2cFd == old(i2cFd) && initialized == old(initialized) && ro == old(ro)
    {
      PushBoundedShape(detectionHistory, ppm > SmokeThresholdPPM, HistoryCapacity);
      detectionHistory := detectionHistory + [ppm > SmokeThresholdPPM];
      if |detectionHistory| > HistoryCapacity {
        detectionHistory := detectionHistory[1..];
      }
      var positiveCount := 0;
      var i := 0;
      while i < |detectionHistory|
        invariant 0 <= i <= |detectionHistory|
        invariant positiveCount == CountTrue(detectionHistory[..i])
      {
        assert detectionHistory[..i + 1][..i] == detectionHistory[..i];
        if detectionHistory[i] {
          positiveCount := positiveCount + 1;
        }
        i := i + 1;
      }
      assert detectionHistory[..i] == detectionHistory;
      detected := positiveCount >= VotesNeeded;
    }
  }

  /** The first two readings after construction never report smoke, whatever they are. */
  lemma FirstTwoCallsFalse(x: bool, y: bool)
    ensures CountTrue(PushBounded([], x, HistoryCapacity)) < VotesNeeded
    ensures CountTrue(PushBounded(PushBounded([], x, HistoryCapacity), y, HistoryCapacity)) < VotesNeeded
  {
    ShortHistoryNeverVotes(PushBounded([], x, HistoryCapacity));
    ShortHistoryNeverVotes(PushBounded(PushBounded([], x, HistoryCapacity), y, HistoryCapacity));
  }

  /** Five crossings in a row fill the history and report smoke. */
  lemma SustainedSmokeDetected(h: seq<bool>)
    requires |h| == HistoryCapacity && forall i :: 0 <= i < |h| ==> h[i]
    ensures CountTrue(PushBounded(h, true, HistoryCapacity)) >= VotesNeeded
  {
    PushBoundedShape(h, true, HistoryCapacity);
    CountAllTrue(PushBounded(h, true, HistoryCapacity));
  }
}
