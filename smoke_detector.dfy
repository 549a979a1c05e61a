/**
 * The camera smoke detector's decision layer: which model output is the
 * smoke probability, the ten-frame confidence history, and the verdict on
 * its mean.  Capturing a frame and running the network are replaced by
 * their outcomes: whether a frame arrived, and the output vector of the
 * inference or `None` when it failed.
 */
module Vision {
  import opened Common
  import opened Window

  const ConfidenceThreshold: real := 0.75
  const HistoryCapacity: nat := 10

  datatype DetectionResult = DetectionResult(detected: bool, confidence: real, smoothedConfidence: real)

  /** What every early return reports. */
  const NoDetection: DetectionResult := DetectionResult(false, 0.0, 0.0)

  /** The smoke probability: the second output of a two-class model, the only output of a one-output model. */
  function SelectConfidence(output: seq<real>): (c: real)
    ensures |output| >= 2 ==> c == output[1]
    ensures |output| == 1 ==> c == output[0]
    ensures output == [] ==> c == 0.0
  {
    if |output| >= 2 then output[1]
    else if |output| == 1 then output[0]
    else 0.0
  }

  /** The verdict on a history: its mean strictly above the threshold. */
  predicate Smoky(history: seq<real>)
    requires history != []
  {
    Mean(history) > ConfidenceThreshold
  }

  /** A history of confidences all above the threshold is smoky. */
  lemma AllConfidentIsSmoky(history: seq<real>)
    requires history != []
    requires forall i :: 0 <= i < |history| ==> history[i] > ConfidenceThreshold
    ensures Smoky(history)
  {
    SumAbove(history, ConfidenceThreshold);
    var n := |history| as real;
    assert Mean(history) * n == Sum(history);
  }

  /** A history with no confidence above the threshold is not. */
  lemma NoneConfidentIsClear(history: seq<real>)
    requires history != []
    requires forall i :: 0 <= i < |history| ==> history[i] <= ConfidenceThreshold
    ensures !Smoky(history)
  {
    SumAtMost(history, ConfidenceThreshold);
    var n := |history| as real;
    assert Mean(history) * n == Sum(history);
  }

  /** One certain frame after nine empty ones does not raise a detection: the verdict is on the mean. */
  lemma OneFrameIsNotEnough()
    ensures SelectConfidence([0.0, 1.0]) > ConfidenceThreshold
    ensures !Smoky(PushBounded(seq(9, _ => 0.0), 1.0, HistoryCapacity))
  {
    var h := PushBounded(seq(9, _ => 0.0), 1.0, HistoryCapacity);
    assert h == [0.0, 0.0, 0.0, 0.0, 0.0, 0.0, 0.0, 0.0, 0.0, 1.0];
    SumAtMost(h[..9], 0.0);
    SumAtLeast(h[..9], 0.0);
    assert Sum(h) == Sum(h[..9]) + 1.0;
  }

  class SmokeDetector {
    var initialized: bool
    /** `confidence_history_`: the confidences of the latest frames, oldest first. */
    var confidenceHistory: seq<real>

    ghost predicate Valid()
      reads this
    {
      |confidenceHistory| <= HistoryCapacity
    }

    constructor()
      ensures Valid()
      ensures !initialized && confidenceHistory == []
    {
      initialized := false;
      confidenceHistory := [];
    }

    /**
     * `initialize`, with the model load and camera open replaced by their
     * outcomes.  A failure leaves the flag as it was.
     */
    method Initialize(modelLoaded: bool, cameraOpened: bool) returns (ok: bool)
      modifies this
      ensures ok <==> modelLoaded && cameraOpened
      ensures initialized == (ok || old(initialized))
      ensures confidenceHistory == old(confidenceHistory)
    {
      if !modelLoaded {
        return false;
      }
      if !cameraOpened {
        return false;
      }
      initialized := true;
      return true;
    }

    /**
     * Runs one detection.  Without initialisation, a frame or a successful
     * inference it reports nothing and keeps the history; otherwise it
     * records the frame's confidence and judges the smoothed history.
     */
    method DetectSmoke(frameCaptured: bool, inference: Option<seq<real>>) returns (result: DetectionResult)
      requires Valid()
      modifies this
      ensures Valid()
      ensures initialized == old(initialized)
      ensures !initialized || !frameCaptured || inference.None? ==>
                result == NoDetection && confidenceHistory == old(confidenceHistory)
      ensures initialized && frameCaptured && inference.Some? ==>
                var c := SelectConfidence(inference.value);
                && confidenceHistory == PushBounded(old(confidenceHistory), c, HistoryCapacity)
                && result.confidence == c
                && result.smoothedConfidence == Mean(confidenceHistory)
                && (result.detected <==> Smoky(confidenceHistory))
    {
      result := NoDetection;
      if !initialized {
        return;
      }
      if !frameCaptured {
        return;
      }
      if inference.None? {
        return;
      }
      var output := inference.value;
      var confidence := 0.0;
      if |output| >= 2 {
        confidence := output[1];
      } else if |output| == 1 {
        confidence := output[0];
      }
      result := result.(confidence := confidence, detected := confidence > ConfidenceThreshold);

      PushBoundedShape(confidenceHistory, confidence, HistoryCapacity);
      confidenceHistory := confidenceHistory + [confidence];
      if |confidenceHistory| > HistoryCapacity {
        confidenceHistory := confidenceHistory[1..];
      }

      var history := confidenceHistory;
      var smoothed := 0.0;
      var i := 0;
      while i < |history|
        invariant 0 <= i <= |history|
        invariant smoothed == Sum(history[..i])
      {
        assert history[..i + 1][..i] == history[..i];
        smoothed := smoothed + history[i];
        i := i + 1;
      }
      assert history[..i] == history;
      smoothed := smoothed / |history| as real;
      result := result.(smoothedConfidence := smoothed, detected := smoothed > ConfidenceThreshold);
    }

    /** A copy of the history; nothing changes. */
    method GetConfidenceHistory() returns (h: seq<real>)
      ensures h == confidenceHistory
    {
      h := confidenceHistory;
    }

    method ClearHistory()
      modifies this
      ensures confidenceHistory == [] && initialized == old(initialized)
    {
      confidenceHistory := [];
    }

    /** Releases the camera and the model; the history is kept. */
    method Shutdown()
      modifies this
      ensures !initialized && confidenceHistory == old(confidenceHistory)
    {
      initialized := false;
    }
  }

  /**
   * Ten consecutive confident frames fill the history with confidences
   * above the threshold, whatever came before, so the tenth reports smoke.
   */
  lemma ConfidentRunIsSmoky(h: seq<real>, run: seq<real>)
    requires |h| <= HistoryCapacity && |run| >= HistoryCapacity
    requires forall i :: 0 <= i < |run| ==> run[i] > ConfidenceThreshold
    ensures PushAll(h, run) != [] && Smoky(PushAll(h, run))
  {
    PushAllSuffix(h, run);
    AllConfidentIsSmoky(PushAll(h, run));
  }

  /** The history after a run of confidences, pushed in order. */
  function PushAll(h: seq<real>, run: seq<real>): (r: seq<real>)
    requires |h| <= HistoryCapacity
    ensures |r| <= HistoryCapacity
    decreases |run|
  {
    if run == [] then h
    else
      PushBoundedShape(h, run[0], HistoryCapacity);
      PushAll(PushBounded(h, run[0], HistoryCapacity), run[1..])
  }

  /** After at least ten pushes the history holds the last ten pushed values. */
  lemma {:induction false} PushAllSuffix(h: seq<real>, run: seq<real>)
    requires |h| <= HistoryCapacity && |run| >= HistoryCapacity
    ensures PushAll(h, run) == run[|run| - HistoryCapacity..]
    decreases |run|
  {
    PushBoundedShape(h, run[0], HistoryCapacity);
    var h' := PushBounded(h, run[0], HistoryCapacity);
    if |run| > HistoryCapacity {
      PushAllSuffix(h', run[1..]);
      assert run[1..][|run| - 1 - HistoryCapacity..] == run[|run| - HistoryCapacity..];
    } else {
      PushAllFull(h', run[1..]);
    }
  }

  /** At most ten pushes that fill the history keep the tail of the old history followed by the pushed values. */
  lemma {:induction false} PushAllFull(h: seq<real>, run: seq<real>)
    requires |h| <= HistoryCapacity && |h| + |run| >= HistoryCapacity && |run| <= HistoryCapacity
    ensures PushAll(h, run) == (h + run)[|h| + |run| - HistoryCapacity..]
    decreases |run|
  {
    if run != [] {
      PushBoundedShape(h, run[0], HistoryCapacity);
      var h' := PushBounded(h, run[0], HistoryCapacity);
      PushAllFull(h', run[1..]);
      if |h| < HistoryCapacity {
        assert h' == h + [run[0]];
        assert h' + run[1..] == h + run;
      } else {
        assert h' == h[1..] + [run[0]];
        assert h' + run[1..] == (h + run)[1..];
      }
    } else {
      assert (h + run)[|h| - HistoryCapacity..] == h;
    }
  }
}
