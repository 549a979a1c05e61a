/**
 * A mesh node: the directory of peers it has heard from, the frames it
 * hands to the radio, and the detection notifications it raises.
 * Each operation runs atomically (the source guards them with mutexes);
 * the current time is an explicit number of seconds.
 */
module Mesh {
  import opened Common
  import opened MeshCodec

  /** What a node knows about one peer. */
  datatype NodeInfo = NodeInfo(nodeId: Byte, detecting: bool, lastSeen: nat)

  /** The entry `operator[]` value-initialises for a peer heard for the first time. */
  const FreshEntry: NodeInfo := NodeInfo(0, false, 0)

  /** Every entry is filed under its own id, and a node never lists itself. */
  predicate Directory(nodes: map<Byte, NodeInfo>, self: Byte)
  {
    self !in nodes && forall k :: k in nodes ==> nodes[k].nodeId == k
  }

  /** The directory after the message `m` arrives at node `self` at time `now`. */
  function AfterMessage(nodes: map<Byte, NodeInfo>, self: Byte, m: MeshMessage, now: nat)
    : (r: map<Byte, NodeInfo>)
    requires WellFormed(m)
    ensures m.sourceId == self ==> r == nodes
    ensures m.sourceId != self ==>
              && r.Keys == nodes.Keys + {m.sourceId}
              && (forall k :: k in nodes && k != m.sourceId ==> r[k] == nodes[k])
              && r[m.sourceId].nodeId == m.sourceId
              && r[m.sourceId].lastSeen == now
    ensures m.sourceId != self && m.msgType == MsgTypeDetection ==>
              r[m.sourceId].detecting == (m.payload[0] == 1)
    ensures m.sourceId != self && m.msgType != MsgTypeDetection ==>
              r[m.sourceId].detecting == (m.sourceId in nodes && nodes[m.sourceId].detecting)
    ensures Directory(nodes, self) ==> Directory(r, self)
  {
    if m.sourceId == self then nodes
    else
      var entry := if m.sourceId in nodes then nodes[m.sourceId] else FreshEntry;
      var detecting := if m.msgType == MsgTypeDetection then m.payload[0] == 1 else entry.detecting;
      nodes[m.sourceId := NodeInfo(m.sourceId, detecting, now)]
  }

  /**
   * A peer has timed out when strictly more than `timeout` seconds have
   * passed since it was heard.  The timeout is a signed `int`, as the
   * configuration stores it.
   */
  predicate Stale(info: NodeInfo, now: nat, timeout: int)
  {
    now - info.lastSeen > timeout
  }

  /** The directory with every timed-out peer removed. */
  function Unexpired(nodes: map<Byte, NodeInfo>, now: nat, timeout: int): (r: map<Byte, NodeInfo>)
    ensures r.Keys <= nodes.Keys
    ensures forall k :: k in nodes ==> (k in r <==> !Stale(nodes[k], now, timeout))
    ensures forall k :: k in r ==> r[k] == nodes[k]
  {
    map k | k in nodes && !Stale(nodes[k], now, timeout) :: nodes[k]
  }

  /** The peers whose last detection report was positive. */
  function DetectingNodes(nodes: map<Byte, NodeInfo>): set<Byte>
  {
    set k | k in nodes && nodes[k].detecting
  }

  lemma DetectingAtMostActive(nodes: map<Byte, NodeInfo>)
    ensures DetectingNodes(nodes) <= nodes.Keys
    ensures |DetectingNodes(nodes)| <= |nodes|
  {
    SubsetCardinality(DetectingNodes(nodes), nodes.Keys);
  }

  lemma {:induction false} SubsetCardinality<T>(a: set<T>, b: set<T>)
    requires a <= b
    ensures |a| <= |b|
    decreases |b|
  {
    if a != {} {
      var x :| x in a;
      SubsetCardinality(a - {x}, b - {x});
    }
  }

  /** Zeros standing in for the payload bytes a message never sends. */
  function Unsent(): (z: seq<Byte>)
    ensures |z| == MaxPayloadSize
  {
    seq(MaxPayloadSize, _ => 0)
  }

  /** The frame `broadcastDetection` builds: a one-byte payload, 1 for a detection and 0 otherwise. */
  function DetectionMessage(self: Byte, detected: bool): (m: MeshMessage)
    ensures WellFormed(m)
  {
    MeshMessage(MsgTypeDetection, self, BroadcastId, [if detected then 1 else 0] + Unsent()[1..], 1)
  }

  /** The frame the heartbeat loop builds: no payload. */
  function HeartbeatMessage(self: Byte): (m: MeshMessage)
    ensures WellFormed(m)
  {
    MeshMessage(MsgTypeHeartbeat, self, BroadcastId, Unsent(), 0)
  }

  /**
   * Payload bytes past the declared length never reach the wire, so the
   * uninitialised tail of a message built on the stack does not matter.
   */
  lemma EncodeIgnoresUnsentPayload(m: MeshMessage, m': MeshMessage)
    requires WellFormed(m) && WellFormed(m')
    requires m' == m.(payload := m'.payload)
    requires m'.payload[..m.payloadLen as int] == m.payload[..m.payloadLen as int]
    ensures Encode(m') == Encode(m)
  {
  }

  /** The six bytes of a detection broadcast and the five of a heartbeat. */
  lemma BroadcastFrames(self: Byte, detected: bool)
    ensures var f := Encode(DetectionMessage(self, detected));
            |f| == 6 && f[..5] == [MsgTypeDetection, self, BroadcastId, 1, if detected then 1 else 0]
            && Xor(f) == 0
    ensures var f := Encode(HeartbeatMessage(self));
            |f| == 5 && f[..4] == [MsgTypeHeartbeat, self, BroadcastId, 0] && Xor(f) == 0
  {
    var f := Encode(DetectionMessage(self, detected));
    assert f[..5] == f[..4] + f[4..5];
  }

  /**
   * End to end: a peer that decodes another node's detection broadcast and
   * processes it records exactly the flag that was broadcast.
   */
  lemma DetectionReachesPeer(sender: Byte, detected: bool, self: Byte, nodes: map<Byte, NodeInfo>,
                             now: nat, padding: seq<Byte>, stale: seq<Byte>)
    requires sender != self && |stale| == MaxPayloadSize
    requires MaxFrameSize <= 6 + |padding|
    ensures var f := Encode(DetectionMessage(sender, detected));
            var d := Decode(f + padding, |f|, stale);
            && d.Frame? && d.verdict == ChecksumOk
            && AfterMessage(nodes, self, d.msg, now)[sender] == NodeInfo(sender, detected, now)
  {
    var m := DetectionMessage(sender, detected);
    RoundTrip(m, padding, stale);
    var d := Decode(Encode(m) + padding, |Encode(m)|, stale);
    assert d.msg.payload[0] == m.payload[0];
  }

  /** A heartbeat from a peer refreshes its entry and keeps its detection flag. */
  lemma HeartbeatRefreshes(sender: Byte, self: Byte, nodes: map<Byte, NodeInfo>, now: nat,
                           padding: seq<Byte>, stale: seq<Byte>)
    requires sender != self && sender in nodes && |stale| == MaxPayloadSize
    requires MaxFrameSize <= 5 + |padding|
    ensures var f := Encode(HeartbeatMessage(sender));
            var d := Decode(f + padding, |f|, stale);
            && d.Frame? && d.verdict == ChecksumOk
            && AfterMessage(nodes, self, d.msg, now)[sender]
               == NodeInfo(sender, nodes[sender].detecting, now)
  {
    RoundTrip(HeartbeatMessage(sender), padding, stale);
  }

  /** A peer heard at `heard` survives every cleanup up to `timeout` seconds later. */
  lemma RecentPeerSurvives(nodes: map<Byte, NodeInfo>, self: Byte, m: MeshMessage,
                           heard: nat, now: nat, timeout: int)
    requires WellFormed(m) && m.sourceId != self
    requires heard <= now <= heard + timeout
    ensures m.sourceId in Unexpired(AfterMessage(nodes, self, m, heard), now, timeout)
  {
  }

  /**
   * A negative `node_timeout_sec` expires every peer on the next cleanup,
   * even one heard this very second.
   */
  lemma NegativeTimeoutExpiresAll(nodes: map<Byte, NodeInfo>, now: nat, timeout: int)
    requires timeout < 0
    requires forall k :: k in nodes ==> nodes[k].lastSeen <= now
    ensures Unexpired(nodes, now, timeout) == map[]
  {
    forall k | k in nodes
      ensures Stale(nodes[k], now, timeout)
    {
    }
    assert Unexpired(nodes, now, timeout).Keys == {};
  }

  class LoraMesh {
    const nodeId: Byte
    /** `active_nodes_`: the peers heard from recently. */
    var activeNodes: map<Byte, NodeInfo>
    /** Whether a detection callback is installed. */
    var callbackSet: bool
    /** Every frame `sendMessage` serialised, oldest first. */
    var outbox: seq<seq<Byte>>
    /** The arguments of every detection callback invocation, oldest first. */
    ghost var notifications: seq<(Byte, bool)>

    ghost predicate Valid()
      reads this
    {
      Directory(activeNodes, nodeId)
    }

    constructor(id: Byte)
      ensures Valid()
      ensures nodeId == id && activeNodes == map[] && !callbackSet
      ensures outbox == [] && notifications == []
    {
      nodeId := id;
      activeNodes := map[];
      callbackSet := false;
      outbox := [];
      notifications := [];
    }

    method SetDetectionCallback(installed: bool)
      modifies this
      ensures callbackSet == installed
      ensures activeNodes == old(activeNodes) && outbox == old(outbox)
      ensures notifications == old(notifications)
    {
      callbackSet := installed;
    }

    /** Updates the directory for a received message and notifies detections. */
    method ProcessMessage(m: MeshMessage, now: nat)
      requires Valid() && WellFormed(m)
      modifies this
      ensures Valid()
      ensures activeNodes == AfterMessage(old(activeNodes), nodeId, m, now)
      ensures notifications == old(notifications) +
                (if m.sourceId != nodeId && m.msgType == MsgTypeDetection && callbackSet
                 then [(m.sourceId, m.payload[0] == 1)] else [])
      ensures callbackSet == old(callbackSet) && outbox == old(outbox)
    {
      if m.sourceId == nodeId {
        return;
      }
      var node := if m.sourceId in activeNodes then activeNodes[m.sourceId] else FreshEntry;
      node := node.(nodeId := m.sourceId, lastSeen := now);
      if m.msgType == MsgTypeDetection {
        node := node.(detecting := m.payload[0] == 1);
        if callbackSet {
          notifications := notifications + [(m.sourceId, node.detecting)];
        }
      }
      activeNodes := activeNodes[m.sourceId := node];
    }

    /** Removes every peer not heard from for more than `timeout` seconds. */
    method CleanupStaleNodes(now: nat, timeout: int)
      requires Valid()
      modifies this
      ensures Valid()
      ensures activeNodes == Unexpired(old(activeNodes), now, timeout)
      ensures callbackSet == old(callbackSet) && outbox == old(outbox)
      ensures notifications == old(notifications)
    {
      var nodes := activeNodes;
      var pending := nodes.Keys;
      while pending != {}
        invariant pending <= activeNodes.Keys
        invariant nodes.Keys <= activeNodes.Keys
        invariant forall k :: k in activeNodes ==>
                    (k in nodes <==> k in pending || !Stale(activeNodes[k], now, timeout))
        invariant forall k :: k in nodes ==> nodes[k] == activeNodes[k]
        decreases |pending|
      {
        var k :| k in pending;
        if Stale(nodes[k], now, timeout) {
          nodes := nodes - {k};
        }
        pending := pending - {k};
      }
      activeNodes := nodes;
    }

    function GetActiveNodeCount(): (n: nat)
      reads this
      ensures n == |activeNodes.Keys|
    {
      |activeNodes|
    }

    /** Counts the peers whose last report was a detection. */
    method GetDetectingNodeCount() returns (count: nat)
      ensures count == |DetectingNodes(activeNodes)|
      ensures count <= GetActiveNodeCount()
    {
      var pending := activeNodes.Keys;
      count := 0;
      while pending != {}
        invariant pending <= activeNodes.Keys
        invariant count == |DetectingNodes(activeNodes) - pending|
        decreases |pending|
      {
        var k :| k in pending;
        if activeNodes[k].detecting {
          assert DetectingNodes(activeNodes) - (pending - {k})
                 == (DetectingNodes(activeNodes) - pending) + {k};
          count := count + 1;
        } else {
          assert DetectingNodes(activeNodes) - (pending - {k})
                 == DetectingNodes(activeNodes) - pending;
        }
        pending := pending - {k};
      }
      assert DetectingNodes(activeNodes) - pending == DetectingNodes(activeNodes);
      DetectingAtMostActive(activeNodes);
    }

    /** Serialises `m` into a fresh 256-byte buffer and hands the frame to the radio. */
    method SendMessage(m: MeshMessage)
      requires WellFormed(m)
      modifies this
      ensures outbox == old(outbox) + [Encode(m)]
      ensures activeNodes == old(activeNodes) && callbackSet == old(callbackSet)
      ensures notifications == old(notifications)
    {
      var buffer := new Byte[256];
      var size := SerializeMessage(m, buffer);
      outbox := outbox + [buffer[..size]];
    }

    method BroadcastDetection(detected: bool)
      modifies this
      ensures outbox == old(outbox) + [Encode(DetectionMessage(nodeId, detected))]
      ensures activeNodes == old(activeNodes) && callbackSet == old(callbackSet)
      ensures notifications == old(notifications)
    {
      SendMessage(DetectionMessage(nodeId, detected));
    }

    /** One round of the heartbeat loop: announce this node, then expire silent peers. */
    method HeartbeatTick(now: nat, timeout: int)
      requires Valid()
      modifies this
      ensures Valid()
      ensures outbox == old(outbox) + [Encode(HeartbeatMessage(nodeId))]
      ensures activeNodes == Unexpired(old(activeNodes), now, timeout)
      ensures callbackSet == old(callbackSet) && notifications == old(notifications)
    {
      SendMessage(HeartbeatMessage(nodeId));
      CleanupStaleNodes(now, timeout);
    }
  }
}
