/** The sending half of a session: numbering frames, grouping them into runs and
    protecting each run with parity frames (src/session/mod.rs). */
module Sending {
  import opened Common
  import opened ErasureCode
  import opened FecFraming
  import opened FecEncoding

  const BURST_SIZE: nat := 16

  /** The frames of a session, as the receiver sees them once decrypted. */
  datatype Frame =
    | DataFrame(frameNo: Seqno, body: Bytes)
    | ParityFrame(first: Seqno, dataCount: nat, parityCount: nat, index: nat, padSize: nat, body: Bytes)

  datatype Sender = Sender(frameNo: Seqno, unfecked: seq<(Seqno, Bytes)>)

  const NEW_SENDER: Sender := Sender(0, [])

  function Bodies(unfecked: seq<(Seqno, Bytes)>): seq<Bytes> {
    seq(|unfecked|, i requires 0 <= i < |unfecked| => unfecked[i].1)
  }

  ghost predicate Sendable(unfecked: seq<(Seqno, Bytes)>) {
    forall i :: 0 <= i < |unfecked| ==> |unfecked[i].1| <= MAX_PACKET
  }

  lemma SendableBodies(unfecked: seq<(Seqno, Bytes)>)
    requires Sendable(unfecked)
    ensures Packets(Bodies(unfecked))
  {
  }

  function PayloadSent(s: Sender, body: Bytes): (Sender, Frame) {
    (Sender(s.frameNo + 1, s.unfecked + [(s.frameNo, body)]), DataFrame(s.frameNo, body))
  }

  function ParityFrames(first: Seqno, dataCount: nat, padSize: nat, parity: seq<Bytes>): seq<Frame> {
    seq(|parity|, i requires 0 <= i < |parity| => ParityFrame(first, dataCount, |parity|, i, padSize, parity[i]))
  }

  /** `lossy` tells whether any loss was measured; `wanted` is the parity count it calls for. */
  function RunClosed(rs: Codec, s: Sender, lossy: bool, wanted: nat): (Sender, seq<Frame>)
    requires |s.unfecked| <= BURST_SIZE && Sendable(s.unfecked)
  {
    if s.unfecked == [] || !lossy then (s.(unfecked := []), [])
    else
      SendableBodies(s.unfecked);
      var bodies := Bodies(s.unfecked);
      (s.(unfecked := []),
       ParityFrames(s.unfecked[0].0, |bodies|, MaxLen(bodies) + 2, ParityOf(rs, bodies, RepairLen(wanted, |bodies|))))
  }

  /** The unprotected frames are the last ones sent, contiguous, and at most a burst. */
  ghost predicate WellFormed(s: Sender, sent: seq<Bytes>) {
    && s.frameNo == |sent| && |s.unfecked| <= BURST_SIZE && |s.unfecked| <= |sent|
    && Sendable(s.unfecked)
    && forall i :: 0 <= i < |s.unfecked| ==>
         s.unfecked[i] == (|sent| - |s.unfecked| + i, sent[|sent| - |s.unfecked| + i])
  }

  class SendLoop {
    const rs: Codec
    var frameNo: Seqno
    var unfecked: seq<(Seqno, Bytes)>

    constructor (rs: Codec)
      ensures State() == NEW_SENDER && this.rs == rs
    {
      this.rs := rs;
      frameNo, unfecked := 0, [];
    }

    ghost function State(): Sender
      reads this
    {
      Sender(frameNo, unfecked)
    }

    /** Whether a run is closed before any further payload is taken: a full burst always
        is, and an incomplete one when the timer has expired. */
    method MustClose(timerExpired: bool) returns (b: bool)
      ensures !b && |unfecked| <= BURST_SIZE ==> |unfecked| < BURST_SIZE
      ensures b ==> unfecked != []
      ensures unfecked != [] && timerExpired ==> b
      ensures b && !timerExpired ==> |unfecked| >= BURST_SIZE
    {
      b := unfecked != [] && (|unfecked| >= BURST_SIZE || timerExpired);
    }

    method OnPayload(body: Bytes) returns (frame: Frame)
      requires |unfecked| < BURST_SIZE && Sendable(unfecked) && |body| <= MAX_PACKET
      modifies this
      ensures |unfecked| <= BURST_SIZE && Sendable(unfecked)
      ensures (State(), frame) == PayloadSent(old(State()), body)
    {
      frame := DataFrame(frameNo, body);
      unfecked := unfecked + [(frameNo, body)];
      frameNo := frameNo + 1;
    }

    method OnFecTimeout(lossy: bool, wanted: nat) returns (frames: seq<Frame>)
      requires |unfecked| <= BURST_SIZE && Sendable(unfecked)
      modifies this
      ensures (State(), frames) == RunClosed(rs, old(State()), lossy, wanted)
    {
      if unfecked == [] {
        return [];
      }
      if !lossy {
        unfecked := [];
        return [];
      }
      SendableBodies(unfecked);
      var first := unfecked[0].0;
      var bodies := Bodies(unfecked);
      var dataCount := |bodies|;
      var expanded := Encode(rs, bodies, wanted);
      var longest := MaxLength(bodies);
      var padSize := longest + 2;
      ghost var m := RepairLen(wanted, dataCount);
      var parity := expanded[dataCount..];
      assert |Padded(bodies)| == dataCount;
      assert parity == ParityOf(rs, bodies, m);
      unfecked := [];
      frames := [];
      for index := 0 to |parity|
        invariant unfecked == []
        invariant frames == ParityFrames(first, dataCount, padSize, parity)[..index]
      {
        frames := frames + [ParityFrame(first, dataCount, |parity|, index, padSize, parity[index])];
      }
      assert frames == ParityFrames(first, dataCount, padSize, parity);
    }
  }
}
