/** The receiving half of a session: every frame, direct or rebuilt, passes the replay
    filter before it is delivered (src/session/machine.rs). */
module Receiving {
  import opened Common
  import opened ErasureCode
  import opened FecFraming
  import opened OutOfBand
  import opened Replay
  import opened Sending

  datatype Receiver = Receiver(filter: Filter, caches: Caches)

  const NEW_RECEIVER: Receiver := Receiver(NEW_FILTER, Caches(map[], map[]))

  /** Frames handed up with their numbers, or the source's assertion failing. */
  datatype Output = Delivered(list: seq<(Bytes, Seqno)>) | Panicked

  /** What the caches drop and the order in which a parity slot is listed. */
  datatype Choice = Choice(dropData: set<Seqno>, dropRuns: set<RunKey>, order: seq<nat>)

  function KeyOf(f: Frame): RunKey
    requires f.ParityFrame?
  {
    RunKey(f.first, f.dataCount, f.parityCount, f.padSize)
  }

  /** Offers the listed frames to the filter one after the other and keeps those it accepts. */
  function OfferedAll(f: Filter, list: seq<(Seqno, Bytes)>): (Filter, seq<(Bytes, Seqno)>) {
    if list == [] then (f, [])
    else
      var last := list[|list| - 1];
      var (g, kept) := OfferedAll(f, list[..|list| - 1]);
      var (h, ok) := Offered(g, last.0);
      (h, if ok then kept + [(last.1, last.0)] else kept)
  }

  ghost predicate ChoiceFits(r: Receiver, f: Frame, c: Choice) {
    f.ParityFrame? && Triggers(r.caches, KeyOf(f), f.index, f.body) ==>
      Lists(c.order, FullSlot(r.caches, KeyOf(f), f.index, f.body))
  }

  ghost predicate Cacheable(r: Receiver) {
    forall s :: s in r.caches.data ==> |r.caches.data[s]| <= MAX_PACKET
  }

  ghost function Received(rs: Codec, r: Receiver, f: Frame, c: Choice): (Receiver, Output)
    requires Cacheable(r) && ChoiceFits(r, f, c)
  {
    match f
    case DataFrame(frameNo, body) =>
      var (filter, ok) := Offered(r.filter, frameNo);
      if !ok then (r.(filter := filter), Delivered([]))
      else (Receiver(filter, DataInserted(r.caches, frameNo, body, c.dropData)), Delivered([(body, frameNo)]))
    case ParityFrame(_, _, _, index, _, body) =>
      var (caches, rebuilt) := ParityInserted(rs, r.caches, KeyOf(f), index, body, c.dropRuns, c.order);
      match rebuilt
      case AssertionFails => (r.(caches := caches), Panicked)
      case Frames(list) =>
        var (filter, kept) := OfferedAll(r.filter, list);
        (Receiver(filter, caches), Delivered(kept))
  }

  class RecvMachine {
    const oobDecoder: OobDecoder
    const replayFilter: ReplayFilter

    constructor (rs: Codec)
      ensures Valid() && State() == NEW_RECEIVER && oobDecoder.rs == rs
      ensures fresh(oobDecoder) && fresh(replayFilter)
    {
      oobDecoder := new OobDecoder(rs);
      replayFilter := new ReplayFilter();
    }

    ghost predicate Valid()
      reads oobDecoder, replayFilter
    {
      oobDecoder.Valid() && replayFilter.Valid()
    }

    ghost function State(): Receiver
      reads oobDecoder, replayFilter
    {
      Receiver(replayFilter.State(), oobDecoder.State())
    }

    /** One decrypted packet; `None` is one that does not decode, and changes nothing. */
    method Process(packet: Option<Frame>) returns (out: Output, ghost choice: Choice)
      requires Valid() && (packet.Some? ==> |packet.value.body| <= MAX_PACKET)
      modifies oobDecoder, replayFilter
      ensures Valid()
      ensures packet.None? ==> State() == old(State()) && out == Delivered([])
      ensures packet.Some? ==>
        && Cacheable(old(State())) && ChoiceFits(old(State()), packet.value, choice)
        && (State(), out) == Received(oobDecoder.rs, old(State()), packet.value, choice)
    {
      choice := Choice({}, {}, []);
      if packet.None? {
        return Delivered([]), choice;
      }
      match packet.value
      case DataFrame(frameNo, body) =>
        var ok := replayFilter.Add(frameNo);
        if !ok {
          return Delivered([]), choice;
        }
        var dropped := oobDecoder.InsertData(frameNo, body);
        out, choice := Delivered([(body, frameNo)]), Choice(dropped, {}, []);
      case ParityFrame(first, dataCount, parityCount, index, padSize, body) =>
        var rebuilt, dropped, order :=
          oobDecoder.InsertParity(RunKey(first, dataCount, parityCount, padSize), index, body);
        choice := Choice({}, dropped, order);
        if rebuilt.AssertionFails? {
          return Panicked, choice;
        }
        var kept := OfferAll(rebuilt.list);
        out := Delivered(kept);
    }

    method OfferAll(list: seq<(Seqno, Bytes)>) returns (kept: seq<(Bytes, Seqno)>)
      requires replayFilter.Valid()
      modifies replayFilter
      ensures replayFilter.Valid()
      ensures (replayFilter.State(), kept) == OfferedAll(old(replayFilter.State()), list)
    {
      kept := [];
      for i := 0 to |list|
        invariant replayFilter.Valid()
        invariant (replayFilter.State(), kept) == OfferedAll(old(replayFilter.State()), list[..i])
      {
        assert list[..i + 1][..i] == list[..i];
        var ok := replayFilter.Add(list[i].0);
        if ok {
          kept := kept + [(list[i].1, list[i].0)];
        }
      }
      assert list[..|list|] == list;
    }
  }
}
