/** The default physical layer: airtime and propagation on transmit, and at the receiver
    a count of receptions in progress, one shared collision flag, channel-busy
    accounting and the bit-error draw. */
module Phy {
  import opened NeighborIndex
  import opened Pdus

  /** Propagation speed used for the propagation delay (dist / 3e8). */
  const SPEED_OF_LIGHT: real := 300000000.0
  /** The default bitrate of DefaultPhyLayer. */
  const DEFAULT_BITRATE: real := 250000.0

  datatype PhyEventKind = TxEnd | RxStart | RxEnd

  /** A call send_pdu schedules: `kind` of the PHY of node `target`, `delay` seconds on. */
  datatype PhyEvent = PhyEvent(delay: real, target: nat, kind: PhyEventKind, frame: Frame)

  /** The start and end of reception send_pdu schedules at each in-range pair, in list
      order: the start after dist / 3e8, the end `txTime` later. */
  function Receptions(p: seq<Entry>, txTime: real, frame: Frame): seq<PhyEvent>
  {
    if p == [] then []
    else
      var e := p[|p| - 1];
      var prop := e.dist / SPEED_OF_LIGHT;
      Receptions(p[..|p| - 1], txTime, frame)
        + [PhyEvent(prop, e.id, RxStart, frame), PhyEvent(prop + txTime, e.id, RxEnd, frame)]
  }

  /** Each in-range neighbour gets one start and one end of reception, the end exactly
      one airtime after the start. */
  lemma {:induction false} ReceptionsPaired(p: seq<Entry>, txTime: real, frame: Frame)
    ensures |Receptions(p, txTime, frame)| == 2 * |p|
    ensures forall k :: 0 <= k < |p| ==>
              && Receptions(p, txTime, frame)[2 * k] == PhyEvent(p[k].dist / SPEED_OF_LIGHT, p[k].id, RxStart, frame)
              && Receptions(p, txTime, frame)[2 * k + 1] == PhyEvent(p[k].dist / SPEED_OF_LIGHT + txTime, p[k].id, RxEnd, frame)
  {
    if p != [] {
      ReceptionsPaired(p[..|p| - 1], txTime, frame);
    }
  }

  /** Everything send_pdu schedules for a frame sent by node `sender` whose neighbour
      list and range are given: its own end of transmission after the airtime, then
      the receptions. */
  function Transmission(sender: nat, frame: Frame, list: seq<Entry>, txRange: real, bitrate: real): seq<PhyEvent>
    requires bitrate > 0.0
  {
    var txTime := frame.nbits as real / bitrate;
    [PhyEvent(txTime, sender, TxEnd, frame)] + Receptions(InRange(list, txRange), txTime, frame)
  }

  /** The neighbour loop of send_pdu: scan the list up to the first pair out of range. */
  method ScheduleReceptions(list: seq<Entry>, txRange: real, txTime: real, frame: Frame) returns (events: seq<PhyEvent>)
    ensures events == Receptions(InRange(list, txRange), txTime, frame)
  {
    events := [];
    var i := 0;
    while i < |list|
      invariant 0 <= i <= |list|
      invariant forall k :: 0 <= k < i ==> list[k].dist <= txRange
      invariant events == Receptions(list[..i], txTime, frame)
    {
      var e := list[i];
      if e.dist <= txRange {
        var prop := e.dist / SPEED_OF_LIGHT;
        events := events + [PhyEvent(prop, e.id, RxStart, frame), PhyEvent(prop + txTime, e.id, RxEnd, frame)];
      } else {
        break;
      }
      assert list[..i + 1][..i] == list[..i];
      i := i + 1;
    }
    assert InRange(list, txRange) == list[..i];
  }

  // ---------------------------------------------------------------------------
  // Reception at one receiver

  /** The reception fields and statistics of one PHY. */
  datatype PhyState = PhyState(
    rxCount: int, collision: bool, busyStart: real,
    totalTx: nat, totalRx: nat, totalCollision: nat, totalError: nat,
    totalBitsTx: nat, totalBitsRx: nat, totalChannelBusy: real, totalChannelTx: real)

  /** A freshly constructed PHY. The source leaves `_collision` unset until the first
      reception; every path assigns it before reading it, so its start value is moot. */
  const InitialPhyState := PhyState(0, false, 0.0, 0, 0, 0, 0, 0, 0, 0.0, 0.0)

  /** The statistics after send_pdu of `frame`: one more transmission, its bits and its
      airtime. */
  function Sent(s: PhyState, frame: Frame, bitrate: real): PhyState
    requires bitrate > 0.0
  {
    s.(totalTx := s.totalTx + 1, totalBitsTx := s.totalBitsTx + frame.nbits,
       totalChannelTx := s.totalChannelTx + frame.nbits as real / bitrate)
  }

  /** on_rx_start at time `now`. A busy start of 0 means "channel idle". */
  function RxStartStep(s: PhyState, now: real): PhyState
  {
    var count := s.rxCount + 1;
    s.(rxCount := count, collision := count > 1,
       busyStart := if s.busyStart == 0.0 then now else s.busyStart)
  }

  datatype RxOutcome = Received | BitError | Collided

  /** on_rx_end up to the hand-off to the MAC layer, at time `now`; `accepted` is the
      outcome of the error draw. A Received outcome is the hand-off: the reception is
      counted only once the MAC layer returns (CountReceived). */
  function RxEndDecision(s: PhyState, now: real, accepted: bool): (PhyState, RxOutcome)
  {
    var count := s.rxCount - 1;
    var s1 :=
      if count != 0 then s.(rxCount := count, collision := true)
      else s.(rxCount := count, totalChannelBusy := s.totalChannelBusy + (now - s.busyStart), busyStart := 0.0);
    if !s1.collision then
      if accepted then (s1, Received)
      else (s1.(totalError := s1.totalError + 1), BitError)
    else (s1.(totalCollision := s1.totalCollision + 1), Collided)
  }

  /** The counting after the MAC layer has taken a received unit of `nbits` bits. */
  function CountReceived(s: PhyState, nbits: nat): PhyState
  {
    s.(totalRx := s.totalRx + 1, totalBitsRx := s.totalBitsRx + nbits)
  }

  /** The whole of on_rx_end for a unit of `nbits` bits, when the MAC layer takes a
      received unit without raising. */
  function RxEndStep(s: PhyState, now: real, nbits: nat, accepted: bool): (PhyState, RxOutcome)
  {
    var (t, o) := RxEndDecision(s, now, accepted);
    (if o == Received then CountReceived(t, nbits) else t, o)
  }

  /** Every end of reception is counted exactly once, as a reception, an error or a
      collision; a unit is handed on only when no collision is flagged and the draw
      accepts it, and only then do its bits count. When the last reception ends the
      busy period is added to the busy time and the sentinel is reset. */
  lemma RxEndCountsOnce(s: PhyState, now: real, nbits: nat, accepted: bool)
    ensures var (t, o) := RxEndStep(s, now, nbits, accepted);
      && t.rxCount == s.rxCount - 1
      && t.totalRx + t.totalError + t.totalCollision == s.totalRx + s.totalError + s.totalCollision + 1
      && t.totalRx == s.totalRx + (if o == Received then 1 else 0)
      && t.totalError == s.totalError + (if o == BitError then 1 else 0)
      && t.totalCollision == s.totalCollision + (if o == Collided then 1 else 0)
      && t.totalBitsRx == s.totalBitsRx + (if o == Received then nbits else 0)
      && (o == Received <==> !(s.rxCount - 1 != 0 || s.collision) && accepted)
      && (o == Collided <==> (s.rxCount - 1 != 0 || s.collision))
      && (t.rxCount == 0 ==> t.totalChannelBusy == s.totalChannelBusy + (now - s.busyStart) && t.busyStart == 0.0)
      && (t.rxCount != 0 ==> t.totalChannelBusy == s.totalChannelBusy && t.busyStart == s.busyStart)
  {
  }

  /** What has happened on the air at one receiver, for the proofs: the units being
      received, the units whose reception has overlapped another, and when the current
      busy period began. Units are named by distinct numbers. */
  datatype RxHistory = RxHistory(active: set<nat>, overlapped: set<nat>, periodStart: real)

  function HistoryBegin(h: RxHistory, unit: nat, now: real): RxHistory
  {
    if h.active == {} then RxHistory({unit}, h.overlapped, now)
    else RxHistory(h.active + {unit}, h.overlapped + h.active + {unit}, h.periodStart)
  }

  function HistoryEnd(h: RxHistory, unit: nat): RxHistory
  {
    h.(active := h.active - {unit})
  }

  /** The PHY fields agree with the history: the count is the number of receptions in
      progress, the collision flag is up whenever a reception in progress has
      overlapped another, and the busy sentinel holds the start of the busy period
      (unless that period began at time 0, which the sentinel cannot tell from idle). */
  ghost predicate Tracks(s: PhyState, h: RxHistory)
  {
    && s.rxCount == |h.active|
    && (|h.active| >= 2 ==> s.collision && h.active <= h.overlapped)
    && (|h.active| == 1 ==> (s.collision <==> h.active <= h.overlapped))
    && (h.active == {} ==> s.busyStart == 0.0)
    && (h.active != {} && h.periodStart != 0.0 ==> s.busyStart == h.periodStart)
  }

  lemma InitialTracks()
    ensures Tracks(InitialPhyState, RxHistory({}, {}, 0.0))
  {
  }

  /** cca() is true exactly when nothing is being received. */
  lemma ClearMeansIdle(s: PhyState, h: RxHistory)
    requires Tracks(s, h)
    ensures s.rxCount == 0 <==> h.active == {}
  {
    if h.active != {} {
      var u :| u in h.active;
      assert |h.active| >= 1;
    }
  }

  /** A new reception keeps the fields in agreement with the history. */
  lemma RxStartTracks(s: PhyState, h: RxHistory, unit: nat, now: real)
    requires Tracks(s, h)
    requires unit !in h.active && unit !in h.overlapped
    ensures Tracks(RxStartStep(s, now), HistoryBegin(h, unit, now))
  {
    var h' := HistoryBegin(h, unit, now);
    assert |h'.active| == |h.active| + 1;
    if h.active != {} {
      var u :| u in h.active;
      assert |h.active| >= 1;
    }
  }

  /** At the end of a reception: the unit is lost to collision exactly when its reception
      overlapped another, whatever the error draw; it is handed to the MAC layer exactly
      when it overlapped nothing and the draw accepts it. The fields keep agreeing with
      the history, and when the last reception ends the busy time grows by the length
      of the busy period. */
  lemma RxEndDecides(s: PhyState, h: RxHistory, unit: nat, now: real, nbits: nat, accepted: bool)
    requires Tracks(s, h) && unit in h.active
    ensures var (t, o) := RxEndStep(s, now, nbits, accepted);
      && Tracks(t, HistoryEnd(h, unit))
      && (o == Collided <==> unit in h.overlapped)
      && (o == Received <==> unit !in h.overlapped && accepted)
      && (h.active == {unit} && h.periodStart != 0.0 ==>
            t.totalChannelBusy == s.totalChannelBusy + (now - h.periodStart))
  {
    var h' := HistoryEnd(h, unit);
    assert |h'.active| == |h.active| - 1;
    if |h.active| == 1 {
      assert h'.active == {};
      assert h.active == {unit};
    } else {
      assert |h.active| >= 2;
      assert h'.active != {};
    }
  }

  /** Two receptions that overlap at an idle receiver are both lost to collision and
      neither reaches the MAC layer, whatever the error draws say. */
  lemma OverlapBothCollide(s: PhyState, t1: real, t2: real, t3: real, t4: real, nbits1: nat, nbits2: nat, acc1: bool, acc2: bool)
    requires s.rxCount == 0
    ensures
      var s2 := RxStartStep(RxStartStep(s, t1), t2);
      var (s3, o1) := RxEndStep(s2, t3, nbits1, acc1);
      var (s4, o2) := RxEndStep(s3, t4, nbits2, acc2);
      && o1 == Collided && o2 == Collided
      && s4.totalRx == s.totalRx && s4.totalBitsRx == s.totalBitsRx
      && s4.totalCollision == s.totalCollision + 2
      && s4.rxCount == 0
  {
  }

  // ---------------------------------------------------------------------------
  // The bit-error draw

  function Pow(b: real, n: nat): real
  {
    if n == 0 then 1.0 else b * Pow(b, n - 1)
  }

  lemma {:induction false} PowOfOne(n: nat)
    ensures Pow(1.0, n) == 1.0
  {
    if n > 0 {
      PowOfOne(n - 1);
    }
  }

  /** `random() < (1 - ber) ** nbits`: the draw accepts the unit. */
  predicate Accepts(draw: real, ber: real, nbits: nat)
  {
    draw < Pow(1.0 - ber, nbits)
  }

  /** With ber = 0 every draw in [0, 1) accepts; with ber = 1 no draw accepts a unit of
      one bit or more. */
  lemma AcceptanceAtBerBounds(draw: real, nbits: nat)
    requires 0.0 <= draw < 1.0
    ensures Accepts(draw, 0.0, nbits)
    ensures nbits > 0 ==> !Accepts(draw, 1.0, nbits)
  {
    PowOfOne(nbits);
  }

  // ---------------------------------------------------------------------------
  // The layer object

  /** DefaultPhyLayer of node `nodeId`. */
  class PhyLayer {
    const nodeId: nat
    const bitrate: real
    const ber: real

    var rxCount: int
    var collision: bool
    var busyStart: real

    var totalTx: nat
    var totalRx: nat
    var totalCollision: nat
    var totalError: nat
    var totalBitsTx: nat
    var totalBitsRx: nat
    var totalChannelBusy: real
    var totalChannelTx: real

    ghost function State(): PhyState
      reads this
    {
      PhyState(rxCount, collision, busyStart, totalTx, totalRx, totalCollision, totalError,
               totalBitsTx, totalBitsRx, totalChannelBusy, totalChannelTx)
    }

    constructor (nodeId: nat, bitrate: real, ber: real)
      requires bitrate > 0.0
      ensures this.nodeId == nodeId && this.bitrate == bitrate && this.ber == ber
      ensures State() == InitialPhyState
    {
      this.nodeId := nodeId;
      this.bitrate := bitrate;
      this.ber := ber;
      rxCount, collision, busyStart := 0, false, 0.0;
      totalTx, totalRx, totalCollision, totalError := 0, 0, 0, 0;
      totalBitsTx, totalBitsRx := 0, 0;
      totalChannelBusy, totalChannelTx := 0.0, 0.0;
    }

    /** send_pdu: charge the transmission to the statistics, then schedule the end of
        transmission here and a start and an end of reception at each in-range
        neighbour of the sending node (its list and range are passed in). */
    method SendPdu(frame: Frame, neighborList: seq<Entry>, txRange: real) returns (events: seq<PhyEvent>)
      requires bitrate > 0.0
      modifies this
      ensures events == Transmission(nodeId, frame, neighborList, txRange, bitrate)
      ensures State() == Sent(old(State()), frame, bitrate)
    {
      var txTime := frame.nbits as real / bitrate;
      var receptions := ScheduleReceptions(neighborList, txRange, txTime, frame);
      events := [PhyEvent(txTime, nodeId, TxEnd, frame)] + receptions;
      totalTx := totalTx + 1;
      totalBitsTx := totalBitsTx + frame.nbits;
      totalChannelTx := totalChannelTx + txTime;
    }

    method OnRxStart(now: real)
      modifies this
      ensures State() == RxStartStep(old(State()), now)
    {
      rxCount := rxCount + 1;
      if rxCount > 1 {
        collision := true;
      } else {
        collision := false;
      }
      if busyStart == 0.0 {
        busyStart := now;
      }
    }

    /** on_rx_end up to the hand-off to the MAC layer; `draw` is the value random()
        returns. */
    method OnRxEnd(now: real, frame: Frame, draw: real) returns (outcome: RxOutcome)
      modifies this
      ensures (State(), outcome) == RxEndDecision(old(State()), now, Accepts(draw, ber, frame.nbits))
    {
      rxCount := rxCount - 1;
      if rxCount != 0 {
        collision := true;
      } else {
        totalChannelBusy := totalChannelBusy + (now - busyStart);
        busyStart := 0.0;
      }
      if !collision {
        if draw < Pow(1.0 - ber, frame.nbits) {
          outcome := Received;
        } else {
          outcome := BitError;
          totalError := totalError + 1;
        }
      } else {
        outcome := Collided;
        totalCollision := totalCollision + 1;
      }
    }

    /** The end of on_rx_end, once the MAC layer has taken the unit: count it. */
    method CountReceivedUnit(frame: Frame)
      modifies this
      ensures State() == CountReceived(old(State()), frame.nbits)
    {
      totalRx := totalRx + 1;
      totalBitsRx := totalBitsRx + frame.nbits;
    }

    /** cca: the channel is clear when no reception is in progress. */
    method Cca() returns (clear: bool)
      ensures clear <==> rxCount == 0
    {
      clear := rxCount == 0;
    }
  }
}
