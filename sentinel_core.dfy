/**
 * The local alert decision: a node that detects smoke itself goes PENDING
 * and tells the mesh, waits for the consensus window, then asks how many
 * peers also detect and either raises the ALERT or drops back to IDLE.
 * Time is a whole number of seconds read once per tick; the consensus
 * threshold is the fraction `thresholdNum / thresholdDen`.
 */
module Sentinel {
  import opened Common
  import opened MeshCodec
  import opened Mesh

  datatype AlertState = Idle | Pending | Alert

  datatype CoreConfig = CoreConfig(
    thresholdNum: nat,
    thresholdDen: nat,
    consensusTimeoutSec: int,
    alertDurationSec: int)

  predicate ValidConfig(cfg: CoreConfig)
  {
    cfg.thresholdDen > 0
  }

  /** The alert state with the two timestamps it is measured from. */
  datatype Status = Status(state: AlertState, consensusStart: nat, alertStart: nat)

  /** One tick's outcome: the new status and the detection flags broadcast, in order. */
  datatype TickResult = TickResult(status: Status, broadcasts: seq<bool>)

  /** This node counts itself: `total = active + 1`, `positive = detecting + local`. */
  function TotalNodes(active: nat): nat
  {
    active + 1
  }

  function PositiveNodes(detecting: nat, local: bool): nat
  {
    detecting + if local then 1 else 0
  }

  /** The vote passes when `positive / total >= num / den`, compared without division. */
  predicate Confirmed(cfg: CoreConfig, active: nat, detecting: nat, local: bool)
  {
    PositiveNodes(detecting, local) * cfg.thresholdDen >= cfg.thresholdNum * TotalNodes(active)
  }

  /** `evaluateConsensus`: ALERT from `now` if the vote passes, IDLE otherwise. */
  function Evaluate(cfg: CoreConfig, s: Status, active: nat, detecting: nat, local: bool, now: nat)
    : (r: Status)
    ensures r.state != Pending
    ensures r.consensusStart == s.consensusStart
    ensures r.state == Alert <==> Confirmed(cfg, active, detecting, local)
    ensures r.alertStart == if Confirmed(cfg, active, detecting, local) then now else s.alertStart
  {
    if Confirmed(cfg, active, detecting, local) then s.(state := Alert, alertStart := now)
    else s.(state := Idle)
  }

  /**
   * `updateAlertState` at time `now`, given the local detection flag and
   * the directory counts it would read if it evaluated the vote.
   */
  function Tick(cfg: CoreConfig, s: Status, local: bool, active: nat, detecting: nat, now: nat)
    : (r: TickResult)
    ensures |r.broadcasts| <= 1
    ensures r.status.state == Pending ==> local
  {
    if local then
      var entered := if s.state == Idle then s.(state := Pending, consensusStart := now) else s;
      var sent := if s.state == Idle then [true] else [];
      if entered.state == Pending && now - entered.consensusStart >= cfg.consensusTimeoutSec then
        TickResult(Evaluate(cfg, entered, active, detecting, local, now), sent)
      else
        TickResult(entered, sent)
    else if s.state == Alert then
      if now - s.alertStart >= cfg.alertDurationSec then TickResult(s.(state := Idle), [false])
      else TickResult(s, [])
    else if s.state == Pending then
      TickResult(s.(state := Idle), [false])
    else
      TickResult(s, [])
  }

  /** The frames a sequence of detection broadcasts puts on the air. */
  function BroadcastFramesOf(self: Byte, flags: seq<bool>): (frames: seq<seq<Byte>>)
    ensures |frames| == |flags|
    ensures forall i :: 0 <= i < |flags| ==> frames[i] == Encode(DetectionMessage(self, flags[i]))
  {
    if flags == [] then []
    else BroadcastFramesOf(self, flags[..|flags| - 1]) + [Encode(DetectionMessage(self, flags[|flags| - 1]))]
  }

  // ---------------------------------------------------------------------
  // The vote.

  /** The integer comparison is the source's ratio comparison, done exactly. */
  lemma ConfirmedIsRatio(cfg: CoreConfig, active: nat, detecting: nat, local: bool)
    requires ValidConfig(cfg)
    ensures Confirmed(cfg, active, detecting, local) <==>
            PositiveNodes(detecting, local) as real / TotalNodes(active) as real
            >= cfg.thresholdNum as real / cfg.thresholdDen as real
  {
    var p := PositiveNodes(detecting, local) as real;
    var t := TotalNodes(active) as real;
    var n := cfg.thresholdNum as real;
    var d := cfg.thresholdDen as real;
    assert p / t - n / d == (p * d - n * t) / (t * d);
  }

  /** With no peers in the directory, the verdict depends only on the local flag. */
  lemma NoPeersDecidesLocally(cfg: CoreConfig, local: bool)
    requires ValidConfig(cfg) && 0 < cfg.thresholdNum <= cfg.thresholdDen
    ensures Confirmed(cfg, 0, 0, local) <==> local
  {
  }

  /** The threshold is inclusive: a ratio exactly at it confirms. */
  lemma ThresholdInclusive(cfg: CoreConfig, active: nat, detecting: nat, local: bool)
    requires PositiveNodes(detecting, local) * cfg.thresholdDen
             == cfg.thresholdNum * TotalNodes(active)
    ensures Confirmed(cfg, active, detecting, local)
  {
  }

  /** Three of four nodes clear a 60% threshold; two of four do not. */
  lemma SixtyPercentExample()
    ensures Confirmed(CoreConfig(3, 5, 5, 60), 3, 2, true)
    ensures !Confirmed(CoreConfig(3, 5, 5, 60), 3, 1, true)
  {
  }

  /** More detecting peers never turn a confirmation into a rejection. */
  lemma ConfirmedMonotonic(cfg: CoreConfig, active: nat, detecting: nat, more: nat, local: bool)
    requires detecting <= more
    requires Confirmed(cfg, active, detecting, local)
    ensures Confirmed(cfg, active, more, local)
  {
    assert PositiveNodes(detecting, local) * cfg.thresholdDen
           <= PositiveNodes(more, local) * cfg.thresholdDen;
  }

  // ---------------------------------------------------------------------
  // The transitions.

  /** IDLE with a local detection goes PENDING from `now` and broadcasts `true`. */
  lemma IdleEntersPending(cfg: CoreConfig, s: Status, active: nat, detecting: nat, now: nat)
    requires s.state == Idle && 0 < cfg.consensusTimeoutSec
    ensures Tick(cfg, s, true, active, detecting, now)
            == TickResult(Status(Pending, now, s.alertStart), [true])
  {
  }

  /** Before the consensus window has run out, PENDING waits silently. */
  lemma PendingWaits(cfg: CoreConfig, s: Status, active: nat, detecting: nat, now: nat)
    requires s.state == Pending && now - s.consensusStart < cfg.consensusTimeoutSec
    ensures Tick(cfg, s, true, active, detecting, now) == TickResult(s, [])
  {
  }

  /** Once the window has run out, PENDING takes the vote, without broadcasting. */
  lemma PendingEvaluates(cfg: CoreConfig, s: Status, active: nat, detecting: nat, now: nat)
    requires s.state == Pending && now - s.consensusStart >= cfg.consensusTimeoutSec
    ensures Tick(cfg, s, true, active, detecting, now)
            == TickResult(Evaluate(cfg, s, active, detecting, true, now), [])
  {
  }

  /** PENDING without a local detection returns to IDLE, broadcasts `false` and takes no vote. */
  lemma PendingAbandoned(cfg: CoreConfig, s: Status, active: nat, detecting: nat, now: nat)
    requires s.state == Pending
    ensures Tick(cfg, s, false, active, detecting, now) == TickResult(s.(state := Idle), [false])
  {
  }

  /** While the local detection persists, an ALERT never changes. */
  lemma AlertHoldsWhileLocal(cfg: CoreConfig, s: Status, active: nat, detecting: nat, now: nat)
    requires s.state == Alert
    ensures Tick(cfg, s, true, active, detecting, now) == TickResult(s, [])
  {
  }

  /** Without a local detection, an ALERT clears with a `false` broadcast exactly when it has lasted long enough. */
  lemma AlertClears(cfg: CoreConfig, s: Status, active: nat, detecting: nat, now: nat)
    requires s.state == Alert
    ensures var r := Tick(cfg, s, false, active, detecting, now);
            if now - s.alertStart >= cfg.alertDurationSec
            then r == TickResult(s.(state := Idle), [false])
            else r == TickResult(s, [])
  {
  }

  /** IDLE without a local detection is a no-op. */
  lemma IdleStaysQuiet(cfg: CoreConfig, s: Status, active: nat, detecting: nat, now: nat)
    requires s.state == Idle
    ensures Tick(cfg, s, false, active, detecting, now) == TickResult(s, [])
  {
  }

  /**
   * Exactly one broadcast per announced transition: `true` exactly on
   * leaving IDLE, `false` exactly on a local clear of PENDING or ALERT;
   * every other tick, a rejected vote included, broadcasts nothing.
   */
  lemma BroadcastOnTransitions(cfg: CoreConfig, s: Status, local: bool, active: nat, detecting: nat,
                               now: nat)
    ensures var r := Tick(cfg, s, local, active, detecting, now);
            && (r.broadcasts == [true] <==> s.state == Idle && local)
            && (r.broadcasts == [false] <==>
                  !local && (s.state == Pending
                             || (s.state == Alert && now - s.alertStart >= cfg.alertDurationSec)))
            && (r.broadcasts != [] <==> r.broadcasts == [true] || r.broadcasts == [false])
            && (r.broadcasts == [false] ==> r.status.state == Idle && s.state != Idle)
  {
  }

  /**
   * A rejected vote while smoke is still seen locally: the node drops to
   * IDLE silently, and its next tick goes PENDING again and re-broadcasts `true`.
   */
  lemma RejectionThenReentry(cfg: CoreConfig, s: Status, active: nat, detecting: nat, now: nat,
                             later: nat)
    requires s.state == Pending && now - s.consensusStart >= cfg.consensusTimeoutSec
    requires !Confirmed(cfg, active, detecting, true)
    requires 0 < cfg.consensusTimeoutSec
    ensures var first := Tick(cfg, s, true, active, detecting, now);
            && first == TickResult(s.(state := Idle), [])
            && Tick(cfg, first.status, true, active, detecting, later)
               == TickResult(Status(Pending, later, s.alertStart), [true])
  {
  }

  class SentinelCore {
    const config: CoreConfig
    const mesh: LoraMesh
    /** `detection_data_.sensor_detected` and `vision_detected`. */
    var sensorDetected: bool
    var visionDetected: bool
    var alertState: AlertState
    var consensusStartTime: nat
    var alertStartTime: nat
    /** The flags passed to `broadcastDetection`, oldest first. */
    ghost var broadcasts: seq<bool>

    ghost predicate Valid()
      reads this, mesh
    {
      ValidConfig(config) && mesh.Valid()
    }

    function LocalDetection(): (d: bool)
      reads this
      ensures d <==> sensorDetected || visionDetected
    {
      sensorDetected || visionDetected
    }

    function CurrentStatus(): (s: Status)
      reads this
      ensures s.state == alertState
      ensures s.consensusStart == consensusStartTime && s.alertStart == alertStartTime
    {
      Status(alertState, consensusStartTime, alertStartTime)
    }

    constructor(cfg: CoreConfig, m: LoraMesh)
      requires ValidConfig(cfg) && m.Valid()
      ensures Valid()
      ensures config == cfg && mesh == m
      ensures !sensorDetected && !visionDetected && alertState == Idle && broadcasts == []
    {
      config := cfg;
      mesh := m;
      sensorDetected := false;
      visionDetected := false;
      alertState := Idle;
      consensusStartTime := 0;
      alertStartTime := 0;
      broadcasts := [];
    }

    /** Stores the MQ-2 verdict of the latest sensor check. */
    method CheckSensor(detected: bool)
      modifies this
      ensures sensorDetected == detected && visionDetected == old(visionDetected)
      ensures CurrentStatus() == old(CurrentStatus()) && broadcasts == old(broadcasts)
    {
      sensorDetected := detected;
    }

    /** Stores the camera verdict of the latest vision check. */
    method CheckVision(detected: bool)
      modifies this
      ensures visionDetected == detected && sensorDetected == old(sensorDetected)
      ensures CurrentStatus() == old(CurrentStatus()) && broadcasts == old(broadcasts)
    {
      visionDetected := detected;
    }

    /** Takes the vote over the directory and settles on ALERT or IDLE. */
    method EvaluateConsensus(now: nat)
      requires Valid()
      modifies this
      ensures Valid()
      ensures CurrentStatus() == Evaluate(config, old(CurrentStatus()), |mesh.activeNodes|,
                                          |DetectingNodes(mesh.activeNodes)|, LocalDetection(), now)
      ensures sensorDetected == old(sensorDetected) && visionDetected == old(visionDetected)
      ensures broadcasts == old(broadcasts)
    {
      var total := mesh.GetActiveNodeCount() + 1;
      var detecting := mesh.GetDetectingNodeCount();
      var positive := detecting + if sensorDetected || visionDetected then 1 else 0;
      if positive * config.thresholdDen >= config.thresholdNum * total {
        alertState := Alert;
        alertStartTime := now;
      } else {
        alertState := Idle;
      }
    }

    /** `mesh_->broadcastDetection(flag)`, with the flag recorded. */
    method Announce(flag: bool)
      requires Valid()
      modifies this, mesh
      ensures Valid()
      ensures broadcasts == old(broadcasts) + [flag]
      ensures mesh.outbox == old(mesh.outbox) + BroadcastFramesOf(mesh.nodeId, [flag])
      ensures CurrentStatus() == old(CurrentStatus())
      ensures sensorDetected == old(sensorDetected) && visionDetected == old(visionDetected)
      ensures mesh.activeNodes == old(mesh.activeNodes) && mesh.notifications == old(mesh.notifications)
      ensures mesh.callbackSet == old(mesh.callbackSet)
    {
      mesh.BroadcastDetection(flag);
      broadcasts := broadcasts + [flag];
    }

    /** One pass of the alert state machine at time `now`. */
    method UpdateAlertState(now: nat)
      requires Valid()
      modifies this, mesh
      ensures Valid()
      ensures var r := Tick(config, old(CurrentStatus()), LocalDetection(), old(|mesh.activeNodes|),
                            old(|DetectingNodes(mesh.activeNodes)|), now);
              && CurrentStatus() == r.status
              && broadcasts == old(broadcasts) + r.broadcasts
              && mesh.outbox == old(mesh.outbox) + BroadcastFramesOf(mesh.nodeId, r.broadcasts)
      ensures sensorDetected == old(sensorDetected) && visionDetected == old(visionDetected)
      ensures mesh.activeNodes == old(mesh.activeNodes) && mesh.notifications == old(mesh.notifications)
      ensures mesh.callbackSet == old(mesh.callbackSet)
    {
      var local := sensorDetected || visionDetected;
      if local {
        if alertState == Idle {
          alertState := Pending;
          consensusStartTime := now;
          Announce(true);
        }
        if alertState == Pending {
          if now - consensusStartTime >= config.consensusTimeoutSec {
            EvaluateConsensus(now);
          }
        }
      } else {
        if alertState == Alert {
          if now - alertStartTime >= config.alertDurationSec {
            alertState := Idle;
            Announce(false);
          }
        } else if alertState == Pending {
          alertState := Idle;
          Announce(false);
        }
      }
    }
  }
}
