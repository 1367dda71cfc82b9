/** The messages of the multiplexed protocol (src/mux/structs.rs). */
module Wire {
  import opened Common

  /** The largest payload of one data segment. */
  const MSS: nat := 1100

  datatype ControlKind = Syn | SynAck | Fin | FinAck | Rst

  /** A message as its receiver sees it once decoded. The payload of a `DataAck` is a
      list of selectively acknowledged seqnos, or `None` where it does not decode. */
  datatype Message =
    | Urel(body: Bytes)
    | Data(streamId: nat, seqno: Seqno, payload: Bytes)
    | DataAck(streamId: nat, cumulative: Seqno, selective: Option<seq<Seqno>>)
    | Control(kind: ControlKind, streamId: nat)
    | Empty
}
