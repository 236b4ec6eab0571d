/** The default MAC layer: a FIFO transmit queue drained by a persistent process with
    exponential backoff, acknowledged unicast and unacknowledged broadcast. The drain
    process is written as an explicit state machine: each step below is the stretch of
    the process between two of its waits. */
module Mac {
  import opened Maybe
  import opened Pdus

  /** One backoff slot: randrange(k) * 5e-3 seconds. */
  const BACKOFF_SLOT: real := 0.005
  /** Added to the frame's airtime to give the ack timeout. */
  const ACK_GUARD: real := 0.001

  /** Where the drain process is. Idle: no process runs. Backoff(k): the next wait is
      randrange(k) slots followed by a channel check. AwaitAck: the unicast head was
      sent and the process waits for its ack or `timeout`. RetryWait: the ack did not
      come and the process sits out the retry backoff. */
  datatype Phase = Idle | Backoff(k: nat) | AwaitAck(timeout: real) | RetryWait

  /** The ack event: the frame it waits for and whether it has fired. */
  datatype AckWait = AckWait(waitFor: Frame, triggered: bool)

  datatype MacState = MacState(
    txQueue: seq<Frame>, ackEvent: Option<AckWait>, phase: Phase, retries: nat, nextSerial: nat,
    totalTxBroadcast: nat, totalTxUnicast: nat, totalRxBroadcast: nat, totalRxUnicast: nat,
    totalRetransmit: nat, totalAck: nat)

  const InitialMacState := MacState([], None, Idle, 0, 0, 0, 0, 0, 0, 0, 0)

  function Pow2(n: nat): nat
  {
    if n == 0 then 1 else 2 * Pow2(n - 1)
  }

  predicate PowerOfTwo(k: nat)
    decreases k
  {
    k == 1 || (k >= 2 && k % 2 == 0 && PowerOfTwo(k / 2))
  }

  /** A frame the drain process waits an ack for. */
  predicate IsUnicast(f: Frame)
  {
    f.Data? && f.dst != BROADCAST_ADDR
  }

  /** The invariant of the MAC of node `nodeId`: a drain process runs exactly while the
      queue is non-empty; the ack event exists only while the unicast head is
      outstanding and waits for that head; the backoff window is a power of two; the
      queue holds this node's data frames in the order they were handed down. */
  ghost predicate Coherent(s: MacState, nodeId: nat)
  {
    && (s.phase.Idle? <==> s.txQueue == [])
    && (s.phase.Idle? ==> s.ackEvent == None && s.retries == 0)
    && (s.phase.Backoff? ==> s.ackEvent == None && PowerOfTwo(s.phase.k))
    && ((s.phase.AwaitAck? || s.phase.RetryWait?) ==>
          s.txQueue != [] && IsUnicast(s.txQueue[0]) && s.ackEvent.Some? && s.ackEvent.value.waitFor == s.txQueue[0])
    && (forall i :: 0 <= i < |s.txQueue| ==>
          s.txQueue[i].Data? && s.txQueue[i].src == nodeId && s.txQueue[i].serial < s.nextSerial)
    && (forall i, j :: 0 <= i < j < |s.txQueue| ==> s.txQueue[i].serial < s.txQueue[j].serial)
  }

  lemma InitialCoherent(nodeId: nat)
    ensures Coherent(InitialMacState, nodeId)
  {
  }

  /** send_pdu: queue the data frame built around `pdu`; start the drain process when
      the queue has just become non-empty. */
  function SendStep(s: MacState, nodeId: nat, dst: int, pdu: NetPdu): (MacState, bool)
  {
    var q := s.txQueue + [MacWrap(s.nextSerial, nodeId, dst, pdu)];
    var started := |q| == 1;
    (s.(txQueue := q, nextSerial := s.nextSerial + 1,
        phase := if started then Backoff(1) else s.phase,
        retries := if started then 0 else s.retries), started)
  }

  /** Drop the head after it has been sent for good, clear the ack event, and go on
      with the next frame or end the process. */
  function Popped(s: MacState): MacState
    requires s.txQueue != []
  {
    s.(txQueue := s.txQueue[1..], ackEvent := None, phase := if |s.txQueue| == 1 then Idle else Backoff(1))
  }

  /** One backoff round: wait `draw` slots (randrange(k)), then check the channel. Busy:
      double the window. Clear: send the head; a broadcast head is done with, a
      unicast head waits for its ack. Returns the wait and the frame sent, if any.
      `clear` is the channel check made at the END of the wait, so the step stands for
      the whole round and is taken once that wait is over. */
  function BackoffStep(s: MacState, draw: nat, clear: bool, bitrate: real): (MacState, real, Option<Frame>)
    requires s.phase.Backoff? && s.txQueue != [] && bitrate > 0.0
  {
    var wait := draw as real * BACKOFF_SLOT;
    if !clear then (s.(phase := Backoff(2 * s.phase.k)), wait, None)
    else
      var frame := s.txQueue[0];
      if IsUnicast(frame) then
        (s.(ackEvent := Some(AckWait(frame, false)), phase := AwaitAck(frame.nbits as real / bitrate + ACK_GUARD)),
         wait, Some(frame))
      else
        (Popped(s).(retries := 0, totalTxBroadcast := s.totalTxBroadcast + 1), wait, Some(frame))
  }

  /** The wait for the ack is over (it fired or timed out). Acked: the head is done
      with. Not acked: count a retry and sit out randrange(2 ** retries) slots, where
      `draw` is that value. Returns the state and the retry wait. */
  function AckWaitStep(s: MacState, draw: nat): (MacState, real)
    requires s.phase.AwaitAck? && s.ackEvent.Some? && s.txQueue != []
  {
    if s.ackEvent.value.triggered then
      (Popped(s).(retries := 0, totalTxUnicast := s.totalTxUnicast + 1), 0.0)
    else
      (s.(retries := s.retries + 1, phase := RetryWait), draw as real * BACKOFF_SLOT)
  }

  /** The retry wait is over: count the retransmission and contend again for the same
      head. There is no retry cap. */
  function RetryStep(s: MacState): MacState
    requires s.phase.RetryWait?
  {
    s.(totalRetransmit := s.totalRetransmit + 1, ackEvent := None, phase := Backoff(1))
  }

  /** What on_receive_pdu does with a frame besides counting: hand a NET unit up (with
      the ack to send back, for a unicast), fire the ack event, or nothing. */
  datatype MacReceipt = Delivered(src: nat, payload: NetPdu, reply: Option<Frame>) | AckMatched | Dropped

  /** on_receive_pdu at the MAC of node `nodeId`. Firing an ack event that has already
      fired is an error of the event library. */
  function ReceiveStep(s: MacState, nodeId: nat, frame: Frame): Result<(MacState, MacReceipt)>
  {
    match frame
    case Data(_, _, src, dst, payload) =>
      if dst == BROADCAST_ADDR then
        Ok((s.(totalRxBroadcast := s.totalRxBroadcast + 1), Delivered(src, payload, None)))
      else if dst == nodeId then
        Ok((s.(totalAck := s.totalAck + 1, totalRxUnicast := s.totalRxUnicast + 1), Delivered(src, payload, Some(AckFor(frame)))))
      else
        Ok((s, Dropped))
    case Ack(_, forFrame) =>
      match s.ackEvent
      case None => Ok((s, Dropped))
      case Some(w) =>
        if forFrame != w.waitFor then Ok((s, Dropped))
        else if w.triggered then Err("event has already been triggered")
        else Ok((s.(ackEvent := Some(w.(triggered := true))), AckMatched))
  }

  // ---------------------------------------------------------------------------
  // Properties of the steps

  /** Handing a unit down appends one frame, 64 bits larger, at the tail; the drain
      process is started exactly when the queue was empty; the invariant holds. */
  lemma SendAppends(s: MacState, nodeId: nat, dst: int, pdu: NetPdu)
    requires Coherent(s, nodeId)
    ensures var (t, started) := SendStep(s, nodeId, dst, pdu);
      && Coherent(t, nodeId)
      && |t.txQueue| == |s.txQueue| + 1 && t.txQueue[..|s.txQueue|] == s.txQueue
      && t.txQueue[|s.txQueue|].nbits == pdu.nbits + MAC_HEADER_BITS
      && t.txQueue[|s.txQueue|].dst == dst && t.txQueue[|s.txQueue|].payload == pdu
      && (started <==> s.txQueue == [])
      && (!started ==> t.phase == s.phase)
  {
    var (t, started) := SendStep(s, nodeId, dst, pdu);
    assert t.txQueue[..|s.txQueue|] == s.txQueue;
  }

  /** A busy round keeps the head and doubles the window; a clear round sends the head;
      a broadcast head then leaves the queue and is counted once, while a unicast head
      stays and the ack event waits for it. The wait is below k slots. */
  lemma BackoffRoundSends(s: MacState, nodeId: nat, draw: nat, clear: bool, bitrate: real)
    requires Coherent(s, nodeId) && s.phase.Backoff? && bitrate > 0.0 && draw < s.phase.k
    ensures var (t, wait, sent) := BackoffStep(s, draw, clear, bitrate);
      && Coherent(t, nodeId)
      && 0.0 <= wait < s.phase.k as real * BACKOFF_SLOT
      && (!clear ==> sent == None && t == s.(phase := Backoff(2 * s.phase.k)))
      && (clear ==> sent == Some(s.txQueue[0]))
      && (clear && !IsUnicast(s.txQueue[0]) ==>
            t.txQueue == s.txQueue[1..] && t.totalTxBroadcast == s.totalTxBroadcast + 1 && t.retries == 0)
      && (clear && IsUnicast(s.txQueue[0]) ==>
            t.txQueue == s.txQueue && t.ackEvent == Some(AckWait(s.txQueue[0], false))
            && t.phase == AwaitAck(s.txQueue[0].nbits as real / bitrate + ACK_GUARD))
  {
    var k := s.phase.k;
    assert (draw as real) * BACKOFF_SLOT < k as real * BACKOFF_SLOT by {
      assert draw as real < k as real;
    }
    if !clear {
      assert (2 * k) % 2 == 0 && (2 * k) / 2 == k;
    } else {
      var (t, wait, sent) := BackoffStep(s, draw, clear, bitrate);
      if !IsUnicast(s.txQueue[0]) {
        forall i, j | 0 <= i < j < |t.txQueue|
          ensures t.txQueue[i].serial < t.txQueue[j].serial
        {
          assert t.txQueue[i] == s.txQueue[i + 1] && t.txQueue[j] == s.txQueue[j + 1];
        }
      }
    }
  }

  /** At the end of the ack wait the unicast head leaves the queue, counted once, exactly
      when its ack arrived; otherwise it stays at the head with one more retry, and the
      retry wait is below 2 ** retries slots. */
  lemma AckWaitDecides(s: MacState, nodeId: nat, draw: nat)
    requires Coherent(s, nodeId) && s.phase.AwaitAck?
    requires draw < Pow2(s.retries + 1)
    ensures var (t, wait) := AckWaitStep(s, draw);
      && Coherent(t, nodeId)
      && (t.txQueue == s.txQueue[1..] <==> s.ackEvent.value.triggered)
      && (t.totalTxUnicast == s.totalTxUnicast + 1 <==> s.ackEvent.value.triggered)
      && (!s.ackEvent.value.triggered ==>
            t.txQueue == s.txQueue && t.retries == s.retries + 1 && t.phase == RetryWait
            && t.totalTxUnicast == s.totalTxUnicast
            && wait < Pow2(t.retries) as real * BACKOFF_SLOT)
  {
    var (t, wait) := AckWaitStep(s, draw);
    if s.ackEvent.value.triggered {
      forall i, j | 0 <= i < j < |t.txQueue|
        ensures t.txQueue[i].serial < t.txQueue[j].serial
      {
        assert t.txQueue[i] == s.txQueue[i + 1] && t.txQueue[j] == s.txQueue[j + 1];
      }
    } else {
      assert |s.txQueue[1..]| < |s.txQueue|;
      assert draw as real < Pow2(t.retries) as real;
    }
  }

  /** After a missed ack the same head is contended for again from a window of one,
      and the retransmission is counted, however many retries came before. */
  lemma RetryKeepsHead(s: MacState, nodeId: nat)
    requires Coherent(s, nodeId) && s.phase.RetryWait?
    ensures var t := RetryStep(s);
      && Coherent(t, nodeId)
      && t.txQueue == s.txQueue && t.retries == s.retries
      && t.totalRetransmit == s.totalRetransmit + 1
      && t.phase == Backoff(1)
  {
  }

  /** Receive dispatch: a data frame for another node changes nothing; a broadcast data
      frame is handed up and counted; a unicast data frame for this node is handed up,
      answered by exactly one ack for it, and counted as received and acked; an ack
      fires the event exactly when it names the awaited frame, and is an error only when
      the event has fired already. Nothing else changes and the invariant holds. */
  lemma ReceiveDispatch(s: MacState, nodeId: nat, frame: Frame)
    requires Coherent(s, nodeId)
    ensures var r := ReceiveStep(s, nodeId, frame);
      && (r.Ok? ==> Coherent(r.value.0, nodeId) && r.value.0.txQueue == s.txQueue && r.value.0.phase == s.phase)
      && (frame.Data? && frame.dst != BROADCAST_ADDR && frame.dst != nodeId ==> r == Ok((s, Dropped)))
      && (frame.Data? && frame.dst == BROADCAST_ADDR ==>
            r == Ok((s.(totalRxBroadcast := s.totalRxBroadcast + 1), Delivered(frame.src, frame.payload, None))))
      && (frame.Data? && frame.dst == nodeId && frame.dst != BROADCAST_ADDR ==>
            r.Ok? && r.value.1 == Delivered(frame.src, frame.payload, Some(AckFor(frame)))
            && r.value.0.totalAck == s.totalAck + 1 && r.value.0.totalRxUnicast == s.totalRxUnicast + 1
            && r.value.0.totalRxBroadcast == s.totalRxBroadcast)
      && (frame.Ack? ==>
            (r.Err? <==> s.ackEvent.Some? && frame.forFrame == s.ackEvent.value.waitFor && s.ackEvent.value.triggered)
            && (r == Ok((s.(ackEvent := Some(AckWait(frame.forFrame, true))), AckMatched)) <==>
                  s.ackEvent.Some? && frame.forFrame == s.ackEvent.value.waitFor && !s.ackEvent.value.triggered)
            && (r.Ok? && r.value.1 != AckMatched ==> r.value.0 == s))
  {
  }

  /** The ack exchange between two nodes: node `b` takes the unicast head `f` that node
      `a` waits on, hands it up and answers with the ack for it; that ack, received at
      `a`, fires `a`'s ack event, and when the wait ends `f` leaves `a`'s queue and is
      counted once as a unicast sent. */
  lemma AckExchange(sa: MacState, a: nat, sb: MacState, b: nat, draw: nat)
    requires Coherent(sa, a) && Coherent(sb, b)
    requires sa.phase.AwaitAck? && !sa.ackEvent.value.triggered && sa.txQueue[0].dst == b
    ensures var f := sa.txQueue[0];
      var rb := ReceiveStep(sb, b, f);
      && rb.Ok? && rb.value.1 == Delivered(a, f.payload, Some(AckFor(f)))
      && var ra := ReceiveStep(sa, a, AckFor(f));
         && ra == Ok((sa.(ackEvent := Some(AckWait(f, true))), AckMatched))
         && Coherent(ra.value.0, a)
         && var (t, wait) := AckWaitStep(ra.value.0, draw);
            && t.txQueue == sa.txQueue[1..] && t.totalTxUnicast == sa.totalTxUnicast + 1
            && t.retries == 0 && wait == 0.0 && Coherent(t, a)
  {
    var f := sa.txQueue[0];
    ReceiveDispatch(sb, b, f);
    ReceiveDispatch(sa, a, AckFor(f));
    var ra := ReceiveStep(sa, a, AckFor(f));
    assert AckWaitStep(ra.value.0, draw).0 == Popped(ra.value.0).(retries := 0, totalTxUnicast := sa.totalTxUnicast + 1);
  }

  /** An ack for a frame this node did not send never fires its ack event. */
  lemma ForeignAckIgnored(s: MacState, nodeId: nat, frame: Frame)
    requires Coherent(s, nodeId) && frame.Ack? && (frame.forFrame.Ack? || frame.forFrame.src != nodeId)
    ensures ReceiveStep(s, nodeId, frame) == Ok((s, Dropped))
  {
  }

  // ---------------------------------------------------------------------------
  // The layer object

  /** DefaultMacLayer of node `nodeId`; `bitrate` is that of the node's PHY. */
  class MacLayer {
    const nodeId: nat
    const bitrate: real

    var txQueue: seq<Frame>
    var ackEvent: Option<AckWait>
    var phase: Phase
    var retries: nat
    var nextSerial: nat

    var totalTxBroadcast: nat
    var totalTxUnicast: nat
    var totalRxBroadcast: nat
    var totalRxUnicast: nat
    var totalRetransmit: nat
    var totalAck: nat

    ghost function State(): MacState
      reads this
    {
      MacState(txQueue, ackEvent, phase, retries, nextSerial,
               totalTxBroadcast, totalTxUnicast, totalRxBroadcast, totalRxUnicast, totalRetransmit, totalAck)
    }

    ghost predicate Valid()
      reads this
    {
      Coherent(State(), nodeId)
    }

    constructor (nodeId: nat, bitrate: real)
      requires bitrate > 0.0
      ensures this.nodeId == nodeId && this.bitrate == bitrate
      ensures State() == InitialMacState && Valid()
    {
      this.nodeId := nodeId;
      this.bitrate := bitrate;
      txQueue, ackEvent, phase, retries, nextSerial := [], None, Idle, 0, 0;
      totalTxBroadcast, totalTxUnicast, totalRxBroadcast, totalRxUnicast := 0, 0, 0, 0;
      totalRetransmit, totalAck := 0, 0;
      InitialCoherent(nodeId);
    }

    method SendPdu(dst: int, pdu: NetPdu) returns (started: bool)
      requires Valid()
      modifies this
      ensures (State(), started) == SendStep(old(State()), nodeId, dst, pdu)
      ensures Valid()
    {
      SendAppends(State(), nodeId, dst, pdu);
      txQueue := txQueue + [MacWrap(nextSerial, nodeId, dst, pdu)];
      nextSerial := nextSerial + 1;
      started := |txQueue| == 1;
      if started {
        retries := 0;
        phase := Backoff(1);
      }
    }

    /** One round of the backoff loop, then the transmission if the channel is clear;
        `sent` is the frame handed to the PHY. */
    method BackoffRound(draw: nat, clear: bool) returns (wait: real, sent: Option<Frame>)
      requires Valid() && phase.Backoff? && bitrate > 0.0 && draw < phase.k
      modifies this
      ensures (State(), wait, sent) == BackoffStep(old(State()), draw, clear, bitrate)
      ensures Valid()
    {
      BackoffRoundSends(State(), nodeId, draw, clear, bitrate);
      wait := draw as real * BACKOFF_SLOT;
      if !clear {
        phase := Backoff(2 * phase.k);
        sent := None;
        return;
      }
      var frame := txQueue[0];
      sent := Some(frame);
      if frame.Data? && frame.dst != BROADCAST_ADDR {
        ackEvent := Some(AckWait(frame, false));
        phase := AwaitAck(frame.nbits as real / bitrate + ACK_GUARD);
      } else {
        retries := 0;
        txQueue := txQueue[1..];
        totalTxBroadcast := totalTxBroadcast + 1;
        ackEvent := None;
        phase := if txQueue == [] then Idle else Backoff(1);
      }
    }

    method AckWaitOver(draw: nat) returns (wait: real)
      requires Valid() && phase.AwaitAck? && draw < Pow2(retries + 1)
      modifies this
      ensures (State(), wait) == AckWaitStep(old(State()), draw)
      ensures Valid()
    {
      AckWaitDecides(State(), nodeId, draw);
      if ackEvent.value.triggered {
        retries := 0;
        txQueue := txQueue[1..];
        totalTxUnicast := totalTxUnicast + 1;
        ackEvent := None;
        phase := if txQueue == [] then Idle else Backoff(1);
        wait := 0.0;
      } else {
        retries := retries + 1;
        wait := draw as real * BACKOFF_SLOT;
        phase := RetryWait;
      }
    }

    method RetryWaitOver()
      requires Valid() && phase.RetryWait?
      modifies this
      ensures State() == RetryStep(old(State()))
      ensures Valid()
    {
      RetryKeepsHead(State(), nodeId);
      totalRetransmit := totalRetransmit + 1;
      ackEvent := None;
      phase := Backoff(1);
    }

    method OnReceivePdu(frame: Frame) returns (r: Result<MacReceipt>)
      requires Valid()
      modifies this
      ensures var step := ReceiveStep(old(State()), nodeId, frame);
        && (step.Ok? ==> r == Ok(step.value.1) && State() == step.value.0)
        && (step.Err? ==> r == Err(step.message) && State() == old(State()))
      ensures Valid()
    {
      ReceiveDispatch(State(), nodeId, frame);
      match frame
      case Data(_, _, src, dst, payload) =>
        if dst == BROADCAST_ADDR {
          totalRxBroadcast := totalRxBroadcast + 1;
          r := Ok(Delivered(src, payload, None));
        } else if dst == nodeId {
          totalAck := totalAck + 1;
          totalRxUnicast := totalRxUnicast + 1;
          r := Ok(Delivered(src, payload, Some(AckFor(frame))));
        } else {
          r := Ok(Dropped);
        }
      case Ack(_, forFrame) =>
        if ackEvent.Some? && forFrame == ackEvent.value.waitFor {
          if ackEvent.value.triggered {
            r := Err("event has already been triggered");
          } else {
            ackEvent := Some(ackEvent.value.(triggered := true));
            r := Ok(AckMatched);
          }
        } else {
          r := Ok(Dropped);
        }
    }
  }
}
