/**
 * The mesh wire format: `type | source | dest | len | payload[len] | checksum`,
 * where the checksum is the XOR of every byte before it.  `Encode` and
 * `Decode` are the reference definitions; `SerializeMessage` and
 * `DeserializeMessage` are the byte-by-byte routines the node runs.
 */
module MeshCodec {
  import opened Common

  const MaxPayloadSize: nat := 64
  const HeaderSize: nat := 4
  /** Header plus checksum: the shortest frame the decoder reads. */
  const MinFrameSize: nat := 5
  /** Header, a full payload and the checksum. */
  const MaxFrameSize: nat := 69

  const MsgTypeHeartbeat: Byte := 0x01
  const MsgTypeDetection: Byte := 0x02
  const MsgTypeAck: Byte := 0x03
  const BroadcastId: Byte := 0xFF

  /**
   * One message.  `payload` is the whole fixed-size payload array; only its
   * first `payloadLen` bytes travel on the wire.
   */
  datatype MeshMessage = MeshMessage(
    msgType: Byte,
    sourceId: Byte,
    destinationId: Byte,
    payload: seq<Byte>,
    payloadLen: Byte)

  predicate WellFormed(m: MeshMessage)
  {
    |m.payload| == MaxPayloadSize && m.payloadLen as int <= MaxPayloadSize
  }

  /** Running XOR of a byte sequence, first byte first. */
  function Xor(s: seq<Byte>): Byte
  {
    if s == [] then 0 else BitXor(Xor(s[..|s| - 1]), s[|s| - 1])
  }

  lemma XorAppend(s: seq<Byte>, x: Byte)
    ensures Xor(s + [x]) == BitXor(Xor(s), x)
  {
    assert (s + [x])[..|s + [x]| - 1] == s;
  }

  /** Header and payload: the bytes the checksum covers. */
  function Body(m: MeshMessage): seq<Byte>
    requires WellFormed(m)
  {
    [m.msgType, m.sourceId, m.destinationId, m.payloadLen] + m.payload[..m.payloadLen as int]
  }

  /** The frame `serializeMessage` emits for `m`. */
  function Encode(m: MeshMessage): (frame: seq<Byte>)
    requires WellFormed(m)
    ensures |frame| == m.payloadLen as int + MinFrameSize
    ensures frame[0] == m.msgType && frame[1] == m.sourceId
    ensures frame[2] == m.destinationId && frame[3] == m.payloadLen
    ensures frame[HeaderSize..HeaderSize + m.payloadLen as int] == m.payload[..m.payloadLen as int]
    ensures frame[|frame| - 1] == Xor(frame[..|frame| - 1])
    ensures Xor(frame) == 0
  {
    var body := Body(m);
    XorAppend(body, Xor(body));
    BitXorLaws(Xor(body), Xor(body));
    assert (body + [Xor(body)])[..|body|] == body;
    body + [Xor(body)]
  }

  /** What the decoder makes of the checksum. */
  datatype Verdict =
    | ChecksumOk
    | ChecksumMismatch  // logged only: the frame is still delivered
    | PayloadTooLarge   // declared length over the maximum: length reset to 0, checksum not read

  /**
   * `TooShort` stands for the uninitialised message returned for a buffer
   * shorter than a header; every other outcome is a delivered message.
   */
  datatype Decoded = TooShort | Frame(msg: MeshMessage, verdict: Verdict)

  /**
   * The message `deserializeMessage` returns for the first `len` bytes of
   * `buffer`.  `stale` is whatever the message's payload array held before
   * the copy (the source never initialises it); the declared length is never
   * compared with `len`, so the payload and checksum are read from `buffer`
   * even past `len`.
   */
  function Decode(buffer: seq<Byte>, len: nat, stale: seq<Byte>): (r: Decoded)
    requires MaxFrameSize <= |buffer| && len <= |buffer| && |stale| == MaxPayloadSize
    ensures r.TooShort? <==> len < MinFrameSize
    ensures r.Frame? ==> WellFormed(r.msg)
    ensures r.Frame? ==> r.msg.msgType == buffer[0] && r.msg.sourceId == buffer[1]
                         && r.msg.destinationId == buffer[2]
    ensures r.Frame? ==> (r.verdict == PayloadTooLarge <==> buffer[3] as int > MaxPayloadSize)
    ensures r.Frame? && r.verdict == PayloadTooLarge ==> r.msg.payloadLen == 0
    ensures r.Frame? && r.verdict != PayloadTooLarge ==>
              r.msg.payloadLen == buffer[3]
              && r.msg.payload[..buffer[3] as int] == buffer[HeaderSize..HeaderSize + buffer[3] as int]
  {
    if len < MinFrameSize then TooShort
    else if buffer[3] as int > MaxPayloadSize then
      Frame(MeshMessage(buffer[0], buffer[1], buffer[2], stale, 0), PayloadTooLarge)
    else
      var n := buffer[3] as int;
      var payload := buffer[HeaderSize..HeaderSize + n] + stale[n..];
      assert payload[..n] == buffer[HeaderSize..HeaderSize + n];
      var verdict := if buffer[HeaderSize + n] == Xor(buffer[..HeaderSize + n])
                     then ChecksumOk else ChecksumMismatch;
      Frame(MeshMessage(buffer[0], buffer[1], buffer[2], payload, buffer[3]), verdict)
  }

  /** `std::memcpy` of the first `n` bytes of `src` into `dst` at offset `at`. */
  method CopyBytes(dst: array<Byte>, at: nat, src: seq<Byte>, n: nat)
    requires n <= |src| && at + n <= dst.Length
    modifies dst
    ensures dst[..at] == old(dst[..at])
    ensures dst[at..at + n] == src[..n]
    ensures dst[at + n..] == old(dst[at + n..])
  {
    forall i | 0 <= i < n {
      dst[at + i] := src[i];
    }
  }

  /** Writes the frame for `msg` at the front of `buffer` and returns its size. */
  method SerializeMessage(msg: MeshMessage, buffer: array<Byte>) returns (size: nat)
    requires WellFormed(msg)
    requires msg.payloadLen as int + MinFrameSize <= buffer.Length
    modifies buffer
    ensures size == msg.payloadLen as int + MinFrameSize
    ensures buffer[..size] == Encode(msg)
    ensures buffer[size..] == old(buffer[size..])
  {
    var offset := 0;
    buffer[offset] := msg.msgType;
    offset := offset + 1;
    buffer[offset] := msg.sourceId;
    offset := offset + 1;
    buffer[offset] := msg.destinationId;
    offset := offset + 1;
    buffer[offset] := msg.payloadLen;
    offset := offset + 1;
    assert buffer[..HeaderSize] == [msg.msgType, msg.sourceId, msg.destinationId, msg.payloadLen];
    assert buffer[HeaderSize..] == old(buffer[HeaderSize..]);

    var n := msg.payloadLen as int;
    CopyBytes(buffer, offset, msg.payload, n);
    offset := offset + n;
    ghost var body := Body(msg);
    assert buffer[..offset] == body by {
      assert buffer[..offset] == buffer[..HeaderSize] + buffer[HeaderSize..offset];
    }
    assert buffer[offset..] == old(buffer[offset..]);

    var checksum: Byte := 0;
    var i := 0;
    while i < offset
      invariant 0 <= i <= offset
      invariant buffer[..offset] == body && buffer[offset..] == old(buffer[offset..])
      invariant checksum == Xor(body[..i])
      modifies {}
    {
      assert BitXor(checksum, buffer[i]) == Xor(body[..i + 1]) by {
        assert buffer[i] == body[i];
        assert body[..i + 1] == body[..i] + [body[i]];
        XorAppend(body[..i], body[i]);
      }
      checksum := BitXor(checksum, buffer[i]);
      i := i + 1;
    }
    assert checksum == Xor(body) by {
      assert body[..offset] == body;
    }
    buffer[offset] := checksum;
    size := offset + 1;
    assert buffer[..size] == body + [Xor(body)] by {
      assert buffer[..size] == buffer[..offset] + [checksum];
    }
    assert buffer[size..] == old(buffer[size..]) by {
      assert buffer[size..] == old(buffer[offset..])[1..];
    }
  }

  /** Reads a message from the first `len` bytes of `buffer`. */
  method DeserializeMessage(buffer: seq<Byte>, len: nat, stale: seq<Byte>) returns (r: Decoded)
    requires MaxFrameSize <= |buffer| && len <= |buffer| && |stale| == MaxPayloadSize
    ensures r == Decode(buffer, len, stale)
  {
    if len < MinFrameSize {
      return TooShort;
    }
    var offset := 0;
    var msgType := buffer[offset];
    offset := offset + 1;
    var sourceId := buffer[offset];
    offset := offset + 1;
    var destinationId := buffer[offset];
    offset := offset + 1;
    var payloadLen := buffer[offset];
    offset := offset + 1;

    if payloadLen as int > MaxPayloadSize {
      return Frame(MeshMessage(msgType, sourceId, destinationId, stale, 0), PayloadTooLarge);
    }

    var n := payloadLen as int;
    var payload := buffer[offset..offset + n] + stale[n..];
    offset := offset + n;

    var received := buffer[offset];
    var calculated: Byte := 0;
    var i := 0;
    while i < offset
      invariant 0 <= i <= offset
      invariant calculated == Xor(buffer[..i])
    {
      assert buffer[..i + 1] == buffer[..i] + [buffer[i]];
      XorAppend(buffer[..i], buffer[i]);
      calculated := BitXor(calculated, buffer[i]);
      i := i + 1;
    }
    var verdict := if received != calculated then ChecksumMismatch else ChecksumOk;
    r := Frame(MeshMessage(msgType, sourceId, destinationId, payload, payloadLen), verdict);
  }

  /** Changing exactly one byte always changes the XOR of the sequence. */
  lemma {:induction false} XorDetectsSingleChange(s: seq<Byte>, t: seq<Byte>, i: nat)
    requires |s| == |t| && i < |s|
    requires s[i] != t[i]
    requires forall j :: 0 <= j < |s| && j != i ==> s[j] == t[j]
    ensures Xor(s) != Xor(t)
  {
    var k := |s| - 1;
    if k == i {
      assert s[..k] == t[..k];
      BitXorInjective(s[k], t[k], Xor(s[..k]));
    } else {
      XorDetectsSingleChange(s[..k], t[..k], i);
      BitXorInjective(Xor(s[..k]), Xor(t[..k]), s[k]);
    }
  }

  /**
   * Round trip: the decoder, given an encoded frame (followed by anything),
   * restores type, source, destination, length and the transmitted payload
   * bytes, with a matching checksum; the untransmitted payload bytes are the
   * receiver's own.
   */
  lemma RoundTrip(m: MeshMessage, padding: seq<Byte>, stale: seq<Byte>)
    requires WellFormed(m) && |stale| == MaxPayloadSize
    requires MaxFrameSize <= |Encode(m) + padding|
    ensures Decode(Encode(m) + padding, |Encode(m)|, stale)
            == Frame(m.(payload := m.payload[..m.payloadLen as int] + stale[m.payloadLen as int..]),
                     ChecksumOk)
    ensures Decode(Encode(m) + padding, |Encode(m)|, m.payload) == Frame(m, ChecksumOk)
  {
    var n := m.payloadLen as int;
    assert m.payload[..n] + m.payload[n..] == m.payload;
    var f := Encode(m);
    var b := f + padding;
    assert b[HeaderSize..HeaderSize + n] == f[HeaderSize..HeaderSize + n];
    assert b[..HeaderSize + n] == f[..|f| - 1];
  }

  /**
   * Only a received length below the header size is ever rejected: for
   * every longer length the result is the same, whatever the declared
   * payload length says.
   */
  lemma ReceivedLengthUnchecked(buffer: seq<Byte>, len: nat, stale: seq<Byte>)
    requires MaxFrameSize <= |buffer| && len <= |buffer| && |stale| == MaxPayloadSize
    requires MinFrameSize <= len
    ensures Decode(buffer, len, stale) == Decode(buffer, MinFrameSize, stale)
    ensures Decode(buffer, len, stale).Frame?
  {
  }

  /** The checksum byte never influences the decoded message, only the verdict. */
  lemma ChecksumByteOnlyAffectsVerdict(buffer: seq<Byte>, len: nat, stale: seq<Byte>, c: Byte)
    requires MaxFrameSize <= |buffer| && len <= |buffer| && |stale| == MaxPayloadSize
    requires buffer[3] as int <= MaxPayloadSize
    ensures var other := buffer[HeaderSize + buffer[3] as int := c];
            Decode(other, len, stale).Frame? == Decode(buffer, len, stale).Frame?
            && (Decode(buffer, len, stale).Frame? ==>
                  Decode(other, len, stale).msg == Decode(buffer, len, stale).msg)
  {
    var n := buffer[3] as int;
    var other := buffer[HeaderSize + n := c];
    assert other[..HeaderSize + n] == buffer[..HeaderSize + n];
    assert other[HeaderSize..HeaderSize + n] == buffer[HeaderSize..HeaderSize + n];
  }

  /**
   * Corrupting any one header byte other than the length, or any payload
   * byte, of an encoded frame is reported as a checksum mismatch.
   */
  lemma CorruptionDetected(m: MeshMessage, i: nat, v: Byte, padding: seq<Byte>, stale: seq<Byte>)
    requires WellFormed(m) && |stale| == MaxPayloadSize
    requires i < HeaderSize + m.payloadLen as int && i != 3
    requires v != Encode(m)[i]
    requires MaxFrameSize <= |Encode(m) + padding|
    ensures var bad := Encode(m)[i := v] + padding;
            Decode(bad, |Encode(m)|, stale).Frame?
            && Decode(bad, |Encode(m)|, stale).verdict == ChecksumMismatch
  {
    var f := Encode(m);
    var n := m.payloadLen as int;
    var g := f[i := v];
    var bad := g + padding;
    assert bad[3] == f[3];
    assert bad[..HeaderSize + n] == g[..HeaderSize + n];
    assert bad[HeaderSize + n] == f[HeaderSize + n];
    XorDetectsSingleChange(f[..HeaderSize + n], g[..HeaderSize + n], i);
  }

  /**
   * A single-bit flip in the length byte can go unnoticed: the frame of a
   * one-byte payload 0xFC from node 1, with its length bit cleared, decodes
   * as an empty-payload message with a matching checksum.
   */
  lemma LengthBitFlipUndetected()
    ensures var m := MeshMessage(MsgTypeDetection, 1, BroadcastId, [0xFC] + seq(63, _ => 0), 1);
            var f := Encode(m);
            var bad := f[3 := 0] + seq(MaxFrameSize, _ => 0);
            Decode(bad, |f|, seq(MaxPayloadSize, _ => 0)) ==
              Frame(MeshMessage(MsgTypeDetection, 1, BroadcastId, seq(MaxPayloadSize, _ => 0), 0), ChecksumOk)
  {
    var m := MeshMessage(MsgTypeDetection, 1, BroadcastId, [0xFC] + seq(63, _ => 0), 1);
    var f := Encode(m);
    assert Body(m) == [MsgTypeDetection, 1, BroadcastId, 1, 0xFC];
    XorAppend([], MsgTypeDetection);
    assert [] + [MsgTypeDetection] == [MsgTypeDetection];
    XorAppend([MsgTypeDetection], 1);
    assert [MsgTypeDetection] + [1] == [MsgTypeDetection, 1];
    XorAppend([MsgTypeDetection, 1], BroadcastId);
    assert [MsgTypeDetection, 1] + [BroadcastId] == [MsgTypeDetection, 1, BroadcastId];
    XorAppend([MsgTypeDetection, 1, BroadcastId], 0);
    assert [MsgTypeDetection, 1, BroadcastId] + [0] == [MsgTypeDetection, 1, BroadcastId, 0];
    assert Xor([MsgTypeDetection, 1, BroadcastId, 0]) == 0xFC;
    var bad := f[3 := 0] + seq(MaxFrameSize, _ => 0);
    assert bad[..HeaderSize] == [MsgTypeDetection, 1, BroadcastId, 0];
  }
}
