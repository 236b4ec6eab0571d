/** The NET layer and the layered node: the node's PHY, MAC and NET wired together, so
    that a message sent by the application travels down the stack into the MAC queue,
    and a frame the PHY accepts travels up to the application's on_receive. */
module Layered {
  import opened Maybe
  import opened Pdus
  import Simulation
  import Phy
  import Mac

  /** The call LayeredNode.on_receive_pdu starts: on_receive(src, *args, **kwargs),
      with `message` standing for the arguments and `nbits` for the `nbits` keyword
      the sender gave, if any. */
  datatype Upcall = Upcall(src: nat, message: string, nbits: Option<nat>)

  /** DefaultNetLayer.on_receive_pdu followed by LayeredNode.on_receive_pdu: strip the
      NET header and hand the application unit up with the MAC source. */
  function NetReceive(src: nat, pdu: NetPdu): Upcall
  {
    Upcall(src, pdu.payload.message, pdu.payload.nbitsArg)
  }

  /** DefaultNetLayer: the unit handed down to the MAC is 64 bits larger than the
      application unit and addressed from this node to `dst`; the receiving side hands
      the arguments it carries up unchanged, with the MAC source. */
  lemma NetLayerRoundTrip(src: nat, macSrc: nat, dst: int, app: AppPdu)
    ensures NetWrap(src, dst, app).nbits == app.nbits + NET_HEADER_BITS
    ensures NetWrap(src, dst, app).src == src && NetWrap(src, dst, app).dst == dst
    ensures NetReceive(macSrc, NetWrap(src, dst, app)) == Upcall(macSrc, app.message, app.nbitsArg)
  {
  }

  /** A message that node `a` sends to node `b` leaves `a`'s MAC as a frame of n + 128
      bits at the tail of the queue; at `b`'s MAC that frame is handed up as a call from
      `a` with the very arguments sent, `nbits` included, and answered by an ack for it; at any third node
      it is dropped. A broadcast message is handed up at every node, with no ack. */
  lemma {:induction false} MessageDelivery(sa: Mac.MacState, a: nat, sb: Mac.MacState, b: nat, dst: int, message: string, nbits: Option<nat>)
    requires Mac.Coherent(sa, a) && Mac.Coherent(sb, b)
    ensures
      var (sa1, _) := Mac.SendStep(sa, a, dst, NetWrap(a, dst, MessageUnit(message, nbits)));
      var frame := sa1.txQueue[|sa.txQueue|];
      var r := Mac.ReceiveStep(sb, b, frame);
      && frame == StackFrame(sa.nextSerial, a, dst, message, nbits)
      && frame.nbits == MessageBits(nbits) + 128
      && ((dst == BROADCAST_ADDR || dst == b) <==> r.Ok? && r.value.1.Delivered?)
      && (r.Ok? && r.value.1.Delivered? ==> NetReceive(r.value.1.src, r.value.1.payload) == Upcall(a, message, nbits))
      && (r.Ok? && r.value.1.Delivered? ==>
            (r.value.1.reply == Some(AckFor(frame)) <==> dst != BROADCAST_ADDR))
      && (dst != BROADCAST_ADDR && dst != b ==> r == Ok((sb, Mac.Dropped)))
  {
    var pdu := NetWrap(a, dst, MessageUnit(message, nbits));
    Mac.SendAppends(sa, a, dst, pdu);
    var (sa1, _) := Mac.SendStep(sa, a, dst, pdu);
    var frame := sa1.txQueue[|sa.txQueue|];
    assert frame == MacWrap(sa.nextSerial, a, dst, pdu);
    StackRoundTrip(sa.nextSerial, a, dst, message, nbits);
    Mac.ReceiveDispatch(sb, b, frame);
  }

  /** LayeredNode with the default layers. The source's class inherits from Node; here
      it holds its Node (position, range and neighbour list). */
  class LayeredNode {
    const node: Simulation.Node
    const phy: Phy.PhyLayer
    const mac: Mac.MacLayer

    ghost predicate Valid()
      reads this, mac
    {
      && phy.nodeId == node.id && mac.nodeId == node.id
      && phy.bitrate > 0.0 && mac.bitrate == phy.bitrate
      && mac.Valid()
    }

    constructor (node: Simulation.Node)
      ensures this.node == node && fresh(phy) && fresh(mac) && Valid()
      ensures phy.bitrate == Phy.DEFAULT_BITRATE && phy.ber == 0.0
      ensures phy.State() == Phy.InitialPhyState && mac.State() == Mac.InitialMacState
    {
      this.node := node;
      var p := new Phy.PhyLayer(node.id, Phy.DEFAULT_BITRATE, 0.0);
      phy := p;
      mac := new Mac.MacLayer(node.id, p.bitrate);
    }

    /** send: build the application unit (default size 512 bits), wrap it in the NET
        layer and queue it at the MAC. */
    method Send(dst: int, message: string, nbits: Option<nat>) returns (started: bool)
      requires Valid()
      modifies mac
      ensures Valid()
      ensures mac.txQueue == old(mac.txQueue) + [StackFrame(old(mac.nextSerial), node.id, dst, message, nbits)]
      ensures started <==> old(mac.txQueue) == []
      ensures (mac.State(), started) == Mac.SendStep(old(mac.State()), node.id, dst, NetWrap(node.id, dst, MessageUnit(message, nbits)))
    {
      var app := MessageUnit(message, nbits);
      var net := NetWrap(node.id, dst, app);
      started := mac.SendPdu(dst, net);
    }

    /** One round of the MAC's backoff loop with the channel check done by this node's
        PHY, and the transmission through the PHY when the channel is clear. It is
        called when the round's backoff wait (the `wait` it returns) has elapsed, since
        the channel check it makes is the one taken after that wait. */
    method BackoffRound(draw: nat) returns (wait: real, events: seq<Phy.PhyEvent>)
      requires Valid() && mac.phase.Backoff? && draw < mac.phase.k
      modifies mac, phy
      ensures Valid()
      ensures var (s, w, sent) := Mac.BackoffStep(old(mac.State()), draw, old(phy.rxCount) == 0, phy.bitrate);
        && mac.State() == s && wait == w
        && (sent.None? ==> events == [] && phy.State() == old(phy.State()))
        && (sent.Some? ==> events == Phy.Transmission(node.id, sent.value, node.neighborDistanceList, node.txRange, phy.bitrate))
        && (sent.Some? ==> phy.State() == Phy.Sent(old(phy.State()), sent.value, phy.bitrate))
    {
      var clear := phy.Cca();
      var sent;
      wait, sent := mac.BackoffRound(draw, clear);
      if sent.Some? {
        events := phy.SendPdu(sent.value, node.neighborDistanceList, node.txRange);
      } else {
        events := [];
      }
    }

    /** The end of a reception at this node's PHY (`draw` is the error draw) and, for a
        frame it accepts, the MAC's dispatch: a NET unit is handed up to the
        application, and the ack it calls for is transmitted through the PHY. The PHY
        counts the reception only once the MAC has returned; when the MAC raises, the
        reception is not counted. */
    method OnRxEnd(now: real, frame: Frame, draw: real)
      returns (outcome: Phy.RxOutcome, up: Option<Upcall>, events: seq<Phy.PhyEvent>, r: Result<()>)
      requires Valid()
      modifies mac, phy
      ensures Valid()
      ensures var (p, o) := Phy.RxEndDecision(old(phy.State()), now, Phy.Accepts(draw, phy.ber, frame.nbits));
        && outcome == o
        && (o != Phy.Received ==> mac.State() == old(mac.State()) && up == None && events == [] && r == Ok(()))
        && (o != Phy.Received ==> phy.State() == Phy.RxEndStep(old(phy.State()), now, frame.nbits, Phy.Accepts(draw, phy.ber, frame.nbits)).0)
      ensures var p := Phy.RxEndDecision(old(phy.State()), now, Phy.Accepts(draw, phy.ber, frame.nbits)).0;
        var step := Mac.ReceiveStep(old(mac.State()), node.id, frame);
        outcome == Phy.Received ==>
          && (step.Err? ==> r == Err(step.message) && up == None && events == [] && mac.State() == old(mac.State())
                            && phy.State() == p && phy.totalRx == old(phy.totalRx) && phy.totalBitsRx == old(phy.totalBitsRx))
          && (step.Ok? ==> r == Ok(()) && mac.State() == step.value.0)
          && (step.Ok? && step.value.1.Delivered? ==>
                && up == Some(NetReceive(step.value.1.src, step.value.1.payload))
                && events == (if step.value.1.reply.Some?
                              then Phy.Transmission(node.id, step.value.1.reply.value, node.neighborDistanceList, node.txRange, phy.bitrate)
                              else []))
          && (step.Ok? && step.value.1.Delivered? && step.value.1.reply.Some? ==>
                phy.State() == Phy.Sent(Phy.CountReceived(p, frame.nbits), step.value.1.reply.value, phy.bitrate))
          && (step.Ok? && !(step.value.1.Delivered? && step.value.1.reply.Some?) ==>
                phy.State() == Phy.CountReceived(p, frame.nbits))
          && (step.Ok? && !step.value.1.Delivered? ==> up == None && events == [])
    {
      outcome := phy.OnRxEnd(now, frame, draw);
      up, events, r := None, [], Ok(());
      if outcome == Phy.Received {
        var receipt := mac.OnReceivePdu(frame);
        match receipt
        case Err(message) =>
          r := Err(message);
        case Ok(Delivered(src, payload, reply)) =>
          up := Some(NetReceive(src, payload));
          if reply.Some? {
            events := phy.SendPdu(reply.value, node.neighborDistanceList, node.txRange);
          }
          phy.CountReceivedUnit(frame);
        case Ok(_) =>
          phy.CountReceivedUnit(frame);
      }
    }
  }
}
