/** What the sending half of a session owes to its history, and that it never gets stuck. */
module SenderHistory {
  import opened Common
  import opened ErasureCode
  import opened FecFraming
  import opened FecEncoding
  import opened OutOfBand
  import opened Sending
  import opened Receiving
  import opened Datagrams
  import opened RunCompleteness

  /** The payloads the application sent. */
  function Payloads(run: seq<Step>): seq<Bytes> {
    if run == [] then []
    else
      var l := run[|run| - 1];
      Payloads(run[..|run| - 1]) + if l.Payload? then [l.body] else []
  }

  /** How many of them came after the last time a run was closed. */
  function SinceClosed(run: seq<Step>): nat {
    if run == [] then 0
    else
      match run[|run| - 1]
      case Payload(_) => SinceClosed(run[..|run| - 1]) + 1
      case FecTimer(_, _) => 0
      case _ => SinceClosed(run[..|run| - 1])
  }

  /** The last payloads, each under its number. */
  ghost predicate AreLast(unfecked: seq<(Seqno, Bytes)>, sent: seq<Bytes>) {
    && |unfecked| <= |sent|
    && forall i :: 0 <= i < |unfecked| ==>
         unfecked[i] == (|sent| - |unfecked| + i, sent[|sent| - |unfecked| + i])
  }

  /** In every run the sender has numbered every payload, and the open run is exactly the payloads
      since a run was last closed, whether or not any loss was measured then. */
  lemma {:induction false} SenderFollows(rs: Codec, cap: nat, run: seq<Step>)
    requires CodeCovers(rs, cap) && CanRun(rs, cap, run)
    ensures var w := After(rs, run);
      && w.sent == Payloads(run) && w.sender.frameNo == |Payloads(run)|
      && |w.sender.unfecked| == SinceClosed(run) <= BURST_SIZE && AreLast(w.sender.unfecked, Payloads(run))
    decreases |run|
  {
    hide Stepped, CanStep, Ready, CodeCovers, WellFormed, HonestFrame;
    RunKeepsInv(rs, cap, run);
    if run == [] {
      assert After(rs, run) == START;
    } else {
      SenderFollows(rs, cap, run[..|run| - 1]);
      LastStepEffect(rs, cap, run);
    }
    OpenRunIsTheLast(After(rs, run).sender, Payloads(run));
  }

  lemma OpenRunIsTheLast(s: Sender, sent: seq<Bytes>)
    requires WellFormed(s, sent)
    ensures s.frameNo == |sent| && |s.unfecked| <= BURST_SIZE
    ensures AreLast(s.unfecked, sent)
  {
  }

  lemma LastStepEffect(rs: Codec, cap: nat, run: seq<Step>)
    requires run != [] && CodeCovers(rs, cap) && CanRun(rs, cap, run)
    ensures var w, v, l := After(rs, run[..|run| - 1]), After(rs, run), run[|run| - 1];
      && v.sent == w.sent + (if l.Payload? then [l.body] else [])
      && |v.sender.unfecked| == (if l.Payload? then |w.sender.unfecked| + 1
                                 else if l.FecTimer? then 0 else |w.sender.unfecked|)
  {
    RunKeepsInv(rs, cap, run);
    assert After(rs, run[..|run| - 1]).sent + [] == After(rs, run[..|run| - 1]).sent;
  }

  /** Whatever the sender holds, closing forgets it, and numbers nothing; parity takes a measured
      loss and something to protect. */
  lemma ClosingForgets(rs: Codec, s: Sender, lossy: bool, wanted: nat)
    requires |s.unfecked| <= BURST_SIZE && Sendable(s.unfecked)
    ensures RunClosed(rs, s, lossy, wanted).0 == Sender(s.frameNo, [])
    ensures s.unfecked == [] || !lossy || wanted == 0 ==> RunClosed(rs, s, lossy, wanted).1 == []
  {
    SendableBodies(s.unfecked);
  }

  /** Closing a run empties it and numbers nothing; without measured loss nothing is sent either. */
  lemma ClosingEmptiesTheRun(rs: Codec, cap: nat, run: seq<Step>, lossy: bool, wanted: nat)
    requires CodeCovers(rs, cap) && CanRun(rs, cap, run) && CanStep(After(rs, run), cap, FecTimer(lossy, wanted))
    ensures Ready(After(rs, run), FecTimer(lossy, wanted))
    ensures var w := After(rs, run); var v := Stepped(rs, w, FecTimer(lossy, wanted));
      && v.sender == Sender(w.sender.frameNo, []) && v.sent == w.sent && v.recv == w.recv && v.out == w.out
      && (!lossy ==> v.wire == w.wire && v.runs == w.runs)
  {
    RunKeepsInv(rs, cap, run);
    InvIsReady(rs, cap, After(rs, run), FecTimer(lossy, wanted));
    assert KeysOf([]) == {};
  }

  /** The sender never gets stuck: in every reachable state it can send any payload at once, or
      right after closing the open run, which it can, with or without measured loss. */
  lemma NeverStuck(rs: Codec, cap: nat, run: seq<Step>, body: Bytes, lossy: bool, wanted: nat)
    requires CodeCovers(rs, cap) && CanRun(rs, cap, run) && |body| <= MAX_PACKET && wanted <= cap
    ensures var w := After(rs, run);
      || CanStep(w, cap, Payload(body))
      || (&& CanStep(w, cap, FecTimer(lossy, wanted)) && Ready(w, FecTimer(lossy, wanted))
          && CanStep(Stepped(rs, w, FecTimer(lossy, wanted)), cap, Payload(body)))
  {
    RunKeepsInv(rs, cap, run);
    var w := After(rs, run);
    if w.sender.unfecked != [] {
      ClosingEmptiesTheRun(rs, cap, run, lossy, wanted);
    }
  }

  // ----- What goes out -----

  ghost predicate Lossless(run: seq<Step>) {
    forall i :: 0 <= i < |run| ==> !run[i].Lose?
  }

  /** A parity frame with this index, for the frames up to number `end` since a run was last closed. */
  ghost predicate IsParityFor(f: Frame, end: Seqno, count: nat, index: nat) {
    f.ParityFrame? && f.first + f.dataCount == end && f.dataCount == count && f.index == index
  }

  lemma PayloadGoesOut(rs: Codec, w: Session, body: Bytes)
    requires Ready(w, Payload(body)) && w.sender.frameNo == |w.sent|
    ensures Stepped(rs, w, Payload(body)).wire == w.wire + {DataFrame(|w.sent|, body)}
  {
  }

  /** While the network loses nothing, every payload is under way as a data frame under its number. */
  lemma {:induction false} EveryPayloadGoesOut(rs: Codec, cap: nat, run: seq<Step>, n: Seqno)
    requires CodeCovers(rs, cap) && CanRun(rs, cap, run) && Lossless(run) && n < |Payloads(run)|
    ensures DataFrame(n, Payloads(run)[n]) in After(rs, run).wire
    decreases |run|
  {
    hide Inv, Stepped, CanStep, Ready, CodeCovers;
    var front, l := run[..|run| - 1], run[|run| - 1];
    RunKeepsInv(rs, cap, run);
    SenderFollows(rs, cap, front);
    assert forall i :: 0 <= i < |front| ==> front[i] == run[i];
    if n < |Payloads(front)| {
      EveryPayloadGoesOut(rs, cap, front, n);
      WireOnlyGrows(rs, After(rs, front), l);
    } else {
      PayloadGoesOut(rs, After(rs, front), l.body);
    }
  }

  lemma WireOnlyGrows(rs: Codec, w: Session, l: Step)
    requires Ready(w, l) && !l.Lose?
    ensures w.wire <= Stepped(rs, w, l).wire
  {
  }

  /** While the network loses nothing, the parity of every run closed under loss is under way, as
      many frames as were asked for, for exactly the payloads since a run was last closed. */
  lemma {:induction false} EveryParityGoesOut(rs: Codec, cap: nat, run: seq<Step>, i: nat, index: nat)
    requires CodeCovers(rs, cap) && CanRun(rs, cap, run) && Lossless(run)
    requires i < |run| && run[i].FecTimer? && run[i].lossy
    requires SinceClosed(run[..i]) <= 255 && index < RepairLen(run[i].wanted, SinceClosed(run[..i]))
    ensures exists f :: f in After(rs, run).wire && IsParityFor(f, |Payloads(run[..i])|, SinceClosed(run[..i]), index)
    decreases |run|
  {
    var front, l := run[..|run| - 1], run[|run| - 1];
    RunKeepsInv(rs, cap, run);
    assert forall j :: 0 <= j < |front| ==> front[j] == run[j];
    if i < |front| {
      assert front[..i] == run[..i];
      EveryParityGoesOut(rs, cap, front, i, index);
      WireOnlyGrows(rs, After(rs, front), l);
    } else {
      SenderFollows(rs, cap, front);
      RunKeepsInv(rs, cap, front);
      var f := ClosedRunGoesOut(rs, cap, After(rs, front), l.wanted, index);
      assert f in After(rs, run).wire;
    }
  }

  lemma ClosedRunGoesOut(rs: Codec, cap: nat, w: Session, wanted: nat, index: nat) returns (f: Frame)
    requires CodeCovers(rs, cap) && Inv(rs, w) && CanStep(w, cap, FecTimer(true, wanted)) && Ready(w, FecTimer(true, wanted))
    requires index < RepairLen(wanted, |w.sender.unfecked|)
    ensures f in Stepped(rs, w, FecTimer(true, wanted)).wire
    ensures IsParityFor(f, |w.sent|, |w.sender.unfecked|, index)
  {
    ClosedRunSendsAllParity(rs, w.sender, w.sent, cap, wanted);
    f := RunClosed(rs, w.sender, true, wanted).1[index];
    var _ := ClosedRunKey(rs, w.sender, w.sent, true, wanted);
  }
}
