/** The protocol data units of the layered stack. Each layer wraps the unit handed down
    from above, adds its header bits, and hands the inner unit back up on receipt. */
module Pdus {
  import opened Maybe

  /** The destination address that names every node. */
  const BROADCAST_ADDR: int := 0xFFFF

  /** Header bits added by the default MAC layer. */
  const MAC_HEADER_BITS: nat := 64
  /** Header bits added by the default NET layer. */
  const NET_HEADER_BITS: nat := 64
  /** LayeredNode.DEFAULT_MSG_NBITS: the size of a message sent without `nbits`. */
  const DEFAULT_MSG_NBITS: nat := 64 * 8

  /** The application unit built by LayeredNode.send; `message` stands for the
      positional and keyword arguments the receiver's on_receive gets back, and
      `nbitsArg` for the `nbits` keyword when one was given, which stays among them. */
  datatype AppPdu = AppPdu(nbits: nat, message: string, nbitsArg: Option<nat>)

  /** The unit of the default NET layer. */
  datatype NetPdu = NetPdu(nbits: nat, src: nat, dst: int, payload: AppPdu)

  /** A frame of the default MAC layer: `data` carries a NET unit, `ack` names the
      data frame it acknowledges. The source tells frames apart by object identity;
      here a data frame carries the serial number its sender's MAC gave it. */
  datatype Frame =
    | Data(nbits: nat, serial: nat, src: nat, dst: int, payload: NetPdu)
    | Ack(nbits: nat, forFrame: Frame)

  /** DefaultNetLayer.send_pdu: wrap the unit with the NET header. */
  function NetWrap(src: nat, dst: int, pdu: AppPdu): NetPdu
  {
    NetPdu(pdu.nbits + NET_HEADER_BITS, src, dst, pdu)
  }

  /** DefaultMacLayer.send_pdu: the data frame built around the unit. */
  function MacWrap(serial: nat, src: nat, dst: int, pdu: NetPdu): Frame
  {
    Data(pdu.nbits + MAC_HEADER_BITS, serial, src, dst, pdu)
  }

  /** The acknowledgement DefaultMacLayer.on_receive_pdu sends for a unicast data frame. */
  function AckFor(frame: Frame): Frame
  {
    Ack(MAC_HEADER_BITS, frame)
  }

  /** The bits of `nbits` requested by LayeredNode.send, or the default size. */
  function MessageBits(nbits: Option<nat>): nat
  {
    match nbits
    case Some(n) => n
    case None => DEFAULT_MSG_NBITS
  }

  /** The application unit LayeredNode.send builds: the requested or default size, with
      the arguments, `nbits` among them when given, kept for the receiver. */
  function MessageUnit(message: string, nbits: Option<nat>): AppPdu
  {
    AppPdu(MessageBits(nbits), message, nbits)
  }

  /** The frame a LayeredNode.send puts in its MAC queue. */
  function StackFrame(serial: nat, src: nat, dst: int, message: string, nbits: Option<nat>): Frame
  {
    MacWrap(serial, src, dst, NetWrap(src, dst, MessageUnit(message, nbits)))
  }

  /** What the receiving node's on_receive gets from a data frame: the MAC source and
      the application unit inside the NET unit. */
  function Unwrap(frame: Frame): Option<(nat, AppPdu)>
  {
    match frame
    case Data(_, _, src, _, net) => Some((src, net.payload))
    case Ack(_, _) => None
  }

  /** An application message of n bits reaches the PHY as n + 128 bits (640 by default),
      and unwrapping the frame gives back the sender and the very message sent. */
  lemma StackRoundTrip(serial: nat, src: nat, dst: int, message: string, nbits: Option<nat>)
    ensures StackFrame(serial, src, dst, message, nbits).nbits == MessageBits(nbits) + 128
    ensures nbits == None ==> StackFrame(serial, src, dst, message, nbits).nbits == 640
    ensures Unwrap(StackFrame(serial, src, dst, message, nbits)) == Some((src, AppPdu(MessageBits(nbits), message, nbits)))
  {
  }
}
