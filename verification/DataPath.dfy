/**
 * The data path of a connection on values (internal/core/conn.go): framing of writes, the paced
 * send loop, acknowledgement handling and delivery. Conn.dfy holds the object that computes it.
 */
module DataPath {
  import opened SeqNum
  import opened Packets
  import opened SendWindow
  import R = RecvWindow

  // ---- framing ----

  /** One queued packet's worth of payload with the framing the send path stamps on it. */
  datatype Frame = Frame(payload: Bytes, msgNo: nat, pos: Position, order: bool, srcTime: nat)

  /** One application write. */
  datatype Write = Write(payload: Bytes, msgNo: nat, order: bool, srcTime: nat)

  function FragmentPosition(off: nat, end: nat, len: nat): Position {
    if off == 0 then (if end == len then Single else First) else (if end == len then Last else Middle)
  }

  /** The frames of w's payload from offset off on, ps bytes each. */
  function FragmentsFrom(w: Write, ps: nat, off: nat, ts: nat): seq<Frame>
    requires ps > 0
    decreases |w.payload| - off
  {
    if off >= |w.payload| then []
    else
      var end := Min(off + ps, |w.payload|);
      [Frame(w.payload[off..end], w.msgNo, FragmentPosition(off, end, |w.payload|), w.order, ts)]
      + FragmentsFrom(w, ps, off + ps, ts)
  }

  /** What one write puts on the send queue; fragments share one source timestamp. */
  function FramesOf(w: Write, ps: int, live: bool, wireTS: nat): seq<Frame> {
    if ps <= 0 || |w.payload| <= ps || live then [Frame(w.payload, w.msgNo, Single, w.order, w.srcTime)]
    else FragmentsFrom(w, ps, 0, if w.srcTime == 0 then wireTS else w.srcTime)
  }

  /** The 26-bit message counter, which skips 0. */
  function NextMsgNo(n: nat): nat {
    var m := (n + 1) % 0x0400_0000;
    if m == 0 then 1 else m
  }

  /** The counter runs through 1 .. 2^26 - 1 and starts over: from any of these it takes all of them in turn. */
  lemma NextMsgNoCycles(n: nat)
    requires 1 <= n < 0x0400_0000
    ensures 1 <= NextMsgNo(n) < 0x0400_0000 && NextMsgNo(n) == (if n == 0x03FF_FFFF then 1 else n + 1)
    ensures NextMsgNo(0) == 1
  {
  }

  function FramePayloads(fs: seq<Frame>): Bytes {
    if fs == [] then [] else fs[0].payload + FramePayloads(fs[1..])
  }

  /** A message on the queue: its frames carry one number, only the first starts it and only the last ends it. */
  ghost predicate MessageFrames(fs: seq<Frame>, w: Write) {
    && |fs| > 0 && FramePayloads(fs) == w.payload
    && (forall i :: 0 <= i < |fs| ==> fs[i].msgNo == w.msgNo && fs[i].order == w.order)
    && (forall i :: 0 <= i < |fs| ==> (fs[i].pos.StartsMessage() <==> i == 0))
    && (forall i :: 0 <= i < |fs| ==> (fs[i].pos.EndsMessage() <==> i == |fs| - 1))
  }

  lemma {:induction false} FragmentsExact(w: Write, ps: nat, off: nat, ts: nat)
    requires ps > 0 && off < |w.payload|
    ensures var fs := FragmentsFrom(w, ps, off, ts);
            && |fs| > 0 && FramePayloads(fs) == w.payload[off..]
            && (forall i :: 0 <= i < |fs| ==> fs[i].msgNo == w.msgNo && fs[i].order == w.order && fs[i].srcTime == ts)
            && (forall i :: 0 <= i < |fs| ==> 0 < |fs[i].payload| <= ps)
            && (forall i :: 0 <= i < |fs| ==> (fs[i].pos.StartsMessage() <==> off == 0 && i == 0))
            && (forall i :: 0 <= i < |fs| ==> (fs[i].pos.EndsMessage() <==> i == |fs| - 1))
    decreases |w.payload| - off
  {
    var end := Min(off + ps, |w.payload|);
    assert w.payload[off..] == w.payload[off..end] + w.payload[end..];
    var rest := FragmentsFrom(w, ps, off + ps, ts);
    if off + ps < |w.payload| {
      FragmentsExact(w, ps, off + ps, ts);
    }
    var fs := FragmentsFrom(w, ps, off, ts);
    assert fs[1..] == rest;
  }

  lemma {:induction false} FragmentsFull(w: Write, ps: nat, off: nat, ts: nat)
    requires ps > 0 && off < |w.payload|
    ensures var fs := FragmentsFrom(w, ps, off, ts);
            && |fs| > 0 && (off + ps < |w.payload| ==> |fs| > 1)
            && (forall i :: 0 <= i < |fs| - 1 ==> |fs[i].payload| == ps)
    decreases |w.payload| - off
  {
    if off + ps < |w.payload| {
      FragmentsFull(w, ps, off + ps, ts);
    }
  }

  /**
   * Fragmentation loses nothing, marks the boundaries and fills every frame but the last, for any payload
   * length and packet size. A write without a source time gets one common time if it is fragmented.
   */
  lemma FramesExact(w: Write, ps: int, live: bool, wireTS: nat)
    ensures MessageFrames(FramesOf(w, ps, live, wireTS), w)
    ensures ps > 0 && !live ==> forall f :: f in FramesOf(w, ps, live, wireTS) ==> |f.payload| <= ps
    ensures var fs := FramesOf(w, ps, live, wireTS);
            forall i :: 0 <= i < |fs| - 1 ==> |fs[i].payload| == ps
    ensures var fs := FramesOf(w, ps, live, wireTS);
            forall f :: f in fs ==> f.srcTime == if w.srcTime == 0 && |fs| > 1 then wireTS else w.srcTime
  {
    if ps <= 0 || |w.payload| <= ps || live {
      var fs := FramesOf(w, ps, live, wireTS);
      assert fs[1..] == [] && FramePayloads(fs) == w.payload + FramePayloads([]);
    } else {
      FragmentsExact(w, ps, 0, if w.srcTime == 0 then wireTS else w.srcTime);
      FragmentsFull(w, ps, 0, if w.srcTime == 0 then wireTS else w.srcTime);
      assert w.payload[0..] == w.payload;
    }
  }

  // ---- the paced send loop ----

  const MAX_PACING_BURST := 10_000  // microseconds

  /** The congestion controller, consulted once per turn: its window, and the interval after the send. */
  datatype Control = Control(cwnd: int, interval: nat)

  datatype Sender = Sender(queue: seq<Frame>, snd: SendView, nextSendTime: int, rcvFlowWin: int)

  datatype Send = Send(at: int, interval: nat)

  datatype Pumped = Pumped(sender: Sender, sent: seq<Packet>, sends: seq<Send>)

  /** The most packets that may be in flight. */
  function Window(flowWindow: int, rcvFlowWin: int, cwnd: int): (w: int)
    ensures w <= flowWindow && w <= cwnd
  {
    Min(cwnd, if 0 < rcvFlowWin < flowWindow then rcvFlowWin else flowWindow)
  }

  /**
   * There is room for another packet exactly below all three limits: the configured flow window, the
   * congestion window and, if it is known, what the peer has advertised.
   */
  lemma WindowExact(flowWindow: int, rcvFlowWin: int, cwnd: int, inFlight: int)
    ensures inFlight < Window(flowWindow, rcvFlowWin, cwnd) <==>
              inFlight < flowWindow && inFlight < cwnd && (rcvFlowWin > 0 ==> inFlight < rcvFlowWin)
  {
  }

  predicate Due(next: int, now: int) {
    next == 0 || next <= now
  }

  function NextDeadline(next: int, now: int, interval: nat): int {
    if next == 0 || now - next > MAX_PACING_BURST then now + interval else next + interval
  }

  function BuildPacket(f: Frame, u: int, wireTS: nat): Packet {
    Packet(Wrap(u), if f.srcTime == 0 then wireTS else f.srcTime, f.pos, f.order, false, f.msgNo, f.payload)
  }

  predicate CanSend(s: Sender, now: int, flowWindow: int, c: Control) {
    && s.queue != []
    && |s.snd.win| < Window(flowWindow, s.rcvFlowWin, c.cwnd)
    && Due(s.nextSendTime, now)
  }

  /** One turn of the loop: the head frame becomes a packet with the next sequence number. */
  function SendOne(s: Sender, now: int, wireTS: nat, c: Control): Sender
    requires s.queue != []
  {
    var p := BuildPacket(s.queue[0], s.snd.Next(), wireTS);
    s.(queue := s.queue[1..],
       snd := PushEntry(s.snd, SendEntry(Some(p), now, 0, 0)),
       nextSendTime := NextDeadline(s.nextSendTime, now, c.interval))
  }

  /** pump: send while there is something to send, the window has room and a packet is due. */
  function Pump(s: Sender, now: int, wireTS: nat, flowWindow: int, ctl: nat -> Control, n: nat): Pumped
    decreases |s.queue|
  {
    if !CanSend(s, now, flowWindow, ctl(n)) then Pumped(s, [], [])
    else
      var p := BuildPacket(s.queue[0], s.snd.Next(), wireTS);
      var rest := Pump(SendOne(s, now, wireTS, ctl(n)), now, wireTS, flowWindow, ctl, n + 1);
      Pumped(rest.sender, [p] + rest.sent, [Send(now, ctl(n).interval)] + rest.sends)
  }

  lemma PumpTurn(s: Sender, now: int, wireTS: nat, flowWindow: int, ctl: nat -> Control, n: nat)
    ensures !CanSend(s, now, flowWindow, ctl(n)) ==> Pump(s, now, wireTS, flowWindow, ctl, n) == Pumped(s, [], [])
    ensures CanSend(s, now, flowWindow, ctl(n)) ==>
              var r := Pump(s, now, wireTS, flowWindow, ctl, n);
              var rest := Pump(SendOne(s, now, wireTS, ctl(n)), now, wireTS, flowWindow, ctl, n + 1);
              && r.sender == rest.sender
              && r.sent == [BuildPacket(s.queue[0], s.snd.Next(), wireTS)] + rest.sent
              && r.sends == [Send(now, ctl(n).interval)] + rest.sends
  {
  }

  predicate RoomFor(s: Sender, inFlight: int, flowWindow: int, cwnd: int) {
    inFlight < flowWindow && inFlight < cwnd && (s.rcvFlowWin > 0 ==> inFlight < s.rcvFlowWin)
  }

  /** The packet carries the frame under number u; without a source time it carries the time of the send. */
  predicate Carries(p: Packet, f: Frame, u: int, wireTS: nat) {
    && p.seqNo == Wrap(u) && p.data == f.payload && p.pos == f.pos && p.msgNo == f.msgNo && p.order == f.order
    && !p.retransmitted && p.timestamp == (if f.srcTime == 0 then wireTS else f.srcTime)
  }

  /** The i-th packet of a pump: frame i of the queue, sent while there was room, and kept. */
  ghost predicate SentAt(s: Sender, r: Pumped, now: int, wireTS: nat, flowWindow: int, ctl: nat -> Control, n: nat,
                         i: nat)
  {
    var w, c := |s.snd.win|, ctl(n + i);
    && i < |r.sent| && i < |s.queue| && i < |r.sends| && w + i < |r.sender.snd.win|
    && Carries(r.sent[i], s.queue[i], s.snd.Next() + i, wireTS)
    && r.sender.snd.win[w + i] == SendEntry(Some(r.sent[i]), now, 0, 0)
    && r.sends[i] == Send(now, c.interval) && RoomFor(s, w + i, flowWindow, c.cwnd)
  }

  /**
   * What pump does: the first frames of the queue become packets with consecutive numbers, each sent
   * while there was room, and it stops only when nothing is queued, there is no room or nothing is due.
   */
  ghost predicate Pumps(s: Sender, r: Pumped, now: int, wireTS: nat, flowWindow: int, ctl: nat -> Control, n: nat) {
    var k, v := |r.sent|, r.sender.snd;
    && |r.sends| == k <= |s.queue| && r.sender.queue == s.queue[k..] && r.sender.rcvFlowWin == s.rcvFlowWin
    && v.base == s.snd.base && |v.win| == |s.snd.win| + k && s.snd.win <= v.win
    && (forall i: nat :: i < k ==> SentAt(s, r, now, wireTS, flowWindow, ctl, n, i))
    && (r.sender.queue == [] || !RoomFor(s, |v.win|, flowWindow, ctl(n + k).cwnd) || !Due(r.sender.nextSendTime, now))
  }

  lemma {:induction false} PumpExact(s: Sender, now: int, wireTS: nat, flowWindow: int, ctl: nat -> Control, n: nat)
    ensures Pumps(s, Pump(s, now, wireTS, flowWindow, ctl, n), now, wireTS, flowWindow, ctl, n)
    decreases |s.queue|
  {
    hide Wrap, NextDeadline, Pump, SentAt, SendOne, Window;
    PumpTurn(s, now, wireTS, flowWindow, ctl, n);
    WindowExact(flowWindow, s.rcvFlowWin, ctl(n).cwnd, |s.snd.win|);
    if CanSend(s, now, flowWindow, ctl(n)) {
      SentFirst(s, now, wireTS, ctl(n));
      var s', r := SendOne(s, now, wireTS, ctl(n)), Pump(s, now, wireTS, flowWindow, ctl, n);
      PumpExact(s', now, wireTS, flowWindow, ctl, n + 1);
      var rest := Pump(s', now, wireTS, flowWindow, ctl, n + 1);
      assert s.queue[1..][|rest.sent|..] == s.queue[|r.sent|..];
      forall i: nat | i < |r.sent|
        ensures SentAt(s, r, now, wireTS, flowWindow, ctl, n, i)
      {
        if i == 0 {
          SentHead(s, rest, r, now, wireTS, flowWindow, ctl, n);
        } else {
          var i' := i - 1;
          assert SentAt(s', rest, now, wireTS, flowWindow, ctl, n + 1, i');
          SentShift(s, rest, r, now, wireTS, flowWindow, ctl, n, i');
        }
      }
      assert n + 1 + |rest.sent| == n + |r.sent|;
    }
  }

  lemma SentFirst(s: Sender, now: int, wireTS: nat, c: Control)
    requires s.queue != []
    ensures var t := SendOne(s, now, wireTS, c);
            && t.queue == s.queue[1..] && t.rcvFlowWin == s.rcvFlowWin && t.snd.base == s.snd.base
            && |t.snd.win| == |s.snd.win| + 1 && s.snd.win <= t.snd.win
  {
    hide Wrap, NextDeadline;
  }

  lemma SentHead(s: Sender, rest: Pumped, r: Pumped, now: int, wireTS: nat, flowWindow: int, ctl: nat -> Control,
                 n: nat)
    requires s.queue != [] && RoomFor(s, |s.snd.win|, flowWindow, ctl(n).cwnd)
    requires SendOne(s, now, wireTS, ctl(n)).snd.win <= r.sender.snd.win
    requires r.sent == [BuildPacket(s.queue[0], s.snd.Next(), wireTS)] + rest.sent
    requires r.sends == [Send(now, ctl(n).interval)] + rest.sends
    ensures SentAt(s, r, now, wireTS, flowWindow, ctl, n, 0)
  {
    hide Wrap, NextDeadline;
    assert r.sender.snd.win[|s.snd.win|] == SendOne(s, now, wireTS, ctl(n)).snd.win[|s.snd.win|];
  }

  lemma SentShift(s: Sender, rest: Pumped, r: Pumped, now: int, wireTS: nat, flowWindow: int, ctl: nat -> Control,
                  n: nat, i: nat)
    requires s.queue != [] && SentAt(SendOne(s, now, wireTS, ctl(n)), rest, now, wireTS, flowWindow, ctl, n + 1, i)
    requires r.sender == rest.sender && r.sent == [BuildPacket(s.queue[0], s.snd.Next(), wireTS)] + rest.sent
    requires r.sends == [Send(now, ctl(n).interval)] + rest.sends
    ensures SentAt(s, r, now, wireTS, flowWindow, ctl, n, i + 1)
  {
    hide Wrap, NextDeadline;
    assert n + 1 + i == n + (i + 1);
  }

  /** The send window never exceeds what the flow window allows, so a ring that covers it never overflows. */
  lemma {:induction false} PumpKeepsWindow(s: Sender, now: int, wireTS: nat, flowWindow: int, ctl: nat -> Control,
                                           n: nat)
    requires |s.snd.win| <= flowWindow
    ensures |Pump(s, now, wireTS, flowWindow, ctl, n).sender.snd.win| <= flowWindow
    decreases |s.queue|
  {
    if CanSend(s, now, flowWindow, ctl(n)) {
      PumpKeepsWindow(SendOne(s, now, wireTS, ctl(n)), now, wireTS, flowWindow, ctl, n + 1);
    }
  }

  // ---- pacing ----

  function DeadlineAfter(next: int, sends: seq<Send>): int {
    if sends == [] then next
    else
      var last := sends[|sends| - 1];
      NextDeadline(DeadlineAfter(next, sends[..|sends| - 1]), last.at, last.interval)
  }

  /** Every send waited for the deadline its predecessors left. */
  ghost predicate Paced(next: int, sends: seq<Send>) {
    forall i :: 0 <= i < |sends| ==> Due(DeadlineAfter(next, sends[..i]), sends[i].at) && sends[i].at >= 0
  }

  function Credit(sends: seq<Send>, i: nat, j: nat): nat
    requires i <= j <= |sends|
  {
    if i == j then 0 else Credit(sends, i, j - 1) + sends[j - 1].interval
  }

  lemma {:induction false} PacedAppend(next: int, before: seq<Send>, send: Send)
    requires Paced(next, before) && Due(DeadlineAfter(next, before), send.at) && send.at >= 0
    ensures Paced(next, before + [send])
    ensures DeadlineAfter(next, before + [send]) == NextDeadline(DeadlineAfter(next, before), send.at, send.interval)
  {
    var log := before + [send];
    assert log[..|before|] == before;
    forall i | 0 <= i < |log|
      ensures Due(DeadlineAfter(next, log[..i]), log[i].at) && log[i].at >= 0
    {
      if i < |before| {
        assert log[..i] == before[..i];
      }
    }
  }

  /** Everything pump sends is paced, and it leaves the deadline its sends add up to. */
  lemma {:induction false} PumpPaces(s: Sender, now: int, wireTS: nat, flowWindow: int, ctl: nat -> Control, n: nat,
                                     next: int, before: seq<Send>)
    requires now >= 0 && s.nextSendTime == DeadlineAfter(next, before) && Paced(next, before)
    ensures var r := Pump(s, now, wireTS, flowWindow, ctl, n);
            Paced(next, before + r.sends) && r.sender.nextSendTime == DeadlineAfter(next, before + r.sends)
    decreases |s.queue|
  {
    if CanSend(s, now, flowWindow, ctl(n)) {
      var send := Send(now, ctl(n).interval);
      var s' := SendOne(s, now, wireTS, ctl(n));
      PacedAppend(next, before, send);
      var log := before + [send];
      var r, full := Pump(s', now, wireTS, flowWindow, ctl, n + 1), Pump(s, now, wireTS, flowWindow, ctl, n);
      assert full.sender == r.sender && before + full.sends == log + r.sends;
      PumpPaces(s', now, wireTS, flowWindow, ctl, n + 1, next, log);
    } else {
      assert before + [] == before;
    }
  }

  /** A paced sender is never held back longer than one interval past its last send. */
  lemma {:induction false} DeadlineNotLate(next: int, sends: seq<Send>, j: nat)
    requires Paced(next, sends) && 0 < j <= |sends|
    ensures DeadlineAfter(next, sends[..j]) <= sends[j - 1].at + sends[j - 1].interval
  {
    assert sends[..j][..j - 1] == sends[..j - 1];
    assert Due(DeadlineAfter(next, sends[..j - 1]), sends[j - 1].at);
  }

  /** Send k came within the burst allowance of its deadline. */
  ghost predicate Timely(next: int, sends: seq<Send>, k: nat)
    requires k < |sends|
  {
    DeadlineAfter(next, sends[..k]) != 0 && sends[k].at - DeadlineAfter(next, sends[..k]) <= MAX_PACING_BURST
  }

  /** Timers that fire late by no more than the allowance cost nothing: the deadlines follow the intervals exactly. */
  lemma {:induction false} NoDrift(next: int, sends: seq<Send>, i: nat, j: nat)
    requires i <= j <= |sends| && forall k :: i <= k < j ==> Timely(next, sends, k)
    ensures DeadlineAfter(next, sends[..j]) == DeadlineAfter(next, sends[..i]) + Credit(sends, i, j)
  {
    if i < j {
      NoDrift(next, sends, i, j - 1);
      assert Timely(next, sends, j - 1);
      assert sends[..j][..j - 1] == sends[..j - 1] && sends[..j][j - 1] == sends[j - 1];
    }
  }

  /** Beyond the allowance the stale credit is dropped: pacing starts over at that send. */
  lemma {:induction false} LateStartsOver(next: int, sends: seq<Send>, j: nat)
    requires j < |sends| && !Timely(next, sends, j)
    ensures DeadlineAfter(next, sends[..j + 1]) == sends[j].at + sends[j].interval
  {
    assert sends[..j + 1][..j] == sends[..j];
  }

  /** The deadline after send j carries all the intervals since send i, less at most one burst. */
  lemma {:induction false} DeadlineCarriesCredit(next: int, sends: seq<Send>, i: nat, j: nat)
    requires Paced(next, sends) && i < j <= |sends|
    ensures DeadlineAfter(next, sends[..j]) >= sends[i].at - MAX_PACING_BURST + Credit(sends, i, j)
  {
    assert sends[..j][..j - 1] == sends[..j - 1] && sends[..j][j - 1] == sends[j - 1];
    assert Due(DeadlineAfter(next, sends[..j - 1]), sends[j - 1].at);
    if j - 1 > i {
      DeadlineCarriesCredit(next, sends, i, j - 1);
    }
  }

  /**
   * Token bucket: between any two sends i and j, however late the timer fired in between, at least
   * the intervals of the sends i .. j - 1 have passed, less 10 ms.
   */
  lemma {:induction false} TokenBucket(next: int, sends: seq<Send>, i: nat, j: nat)
    requires Paced(next, sends) && i < j < |sends|
    ensures Credit(sends, i, j) <= sends[j].at - sends[i].at + MAX_PACING_BURST
  {
    DeadlineCarriesCredit(next, sends, i, j);
  }

  // ---- acknowledgements ----

  /** The sender's reaction to an acknowledgement, before it pumps. */
  function HandleAck(s: Sender, ack: Num, lite: bool, available: nat): Sender {
    var n := Released(s.snd, ack);
    s.(snd := SendWindow.DropHead(s.snd, n),
       rcvFlowWin := if !lite then available
                     else if n > 0 && s.rcvFlowWin > 0 then s.rcvFlowWin - n else s.rcvFlowWin)
  }

  /** The number up to which the peer's last advertisement lets the sender go. */
  function Edge(s: Sender): int {
    s.snd.base + s.rcvFlowWin
  }

  /**
   * A full acknowledgement sets the advertised size. A lite one leaves the edge where it was, as long as
   * it releases fewer packets than were advertised; releasing them all makes the size unknown again.
   */
  lemma AckMovesEdge(s: Sender, ack: Num, lite: bool, available: nat)
    ensures var t := HandleAck(s, ack, lite, available);
            && (!lite ==> t.rcvFlowWin == available)
            && (lite && s.rcvFlowWin > 0 ==>
                  Edge(t) == Edge(s) && (t.rcvFlowWin > 0 <==> Released(s.snd, ack) < s.rcvFlowWin))
            && (lite && s.rcvFlowWin <= 0 ==> t.rcvFlowWin == s.rcvFlowWin)
  {
    hide Distance, Wrap;
  }

  /** The peer advertises 10, 10 packets are in flight, a lite acknowledgement covers them: the limit is gone. */
  lemma AdvertisementForgotten(flowWindow: int, cwnd: int, e: SendEntry)
    requires 10 < flowWindow && 10 < cwnd
    ensures var s := Sender([], SendView(100, seq(10, _ => e)), 0, 10);
            && Window(flowWindow, s.rcvFlowWin, cwnd) == 10
            && HandleAck(s, 110, true, 0).rcvFlowWin == 0
            && Window(flowWindow, HandleAck(s, 110, true, 0).rcvFlowWin, cwnd) == Min(cwnd, flowWindow)
  {
  }

  // ---- delivery ----

  datatype Event = DataReceived(data: Bytes, seqNo: Num, msgNo: nat, boundary: Position)

  function EventOf(ps: seq<Packet>): Event
    requires |ps| > 0
  {
    DataReceived(Payloads(ps), ps[0].seqNo, ps[0].msgNo, ps[0].pos)
  }

  datatype Delivered = Delivered(view: R.RecvView, events: seq<Event>)

  /** deliver: every contiguous packet goes up (stream mode). */
  function DeliverStream(v: R.RecvView): Delivered
    decreases |v.win|
  {
    if !R.ReadyHead(v) then Delivered(v, [])
    else
      var rest := DeliverStream(R.PopHead(v));
      Delivered(rest.view, [EventOf([v.win[0].pkt.value])] + rest.events)
  }

  /** Exactly the maximal run of available packets goes up, one event per packet, and nothing available stays. */
  lemma {:induction false} StreamDrains(v: R.RecvView)
    ensures var d := DeliverStream(v); var n := |d.events|;
            && n <= |v.win| && d.view == R.DropHead(v, n) && !R.ReadyHead(d.view)
            && (forall i :: 0 <= i < n ==> v.win[i].Has() && d.events[i] == EventOf([v.win[i].pkt.value]))
    decreases |v.win|
  {
    if R.ReadyHead(v) {
      StreamDrains(R.PopHead(v));
    }
  }

  /** deliverMessages without out-of-order messages: complete messages go up from the head. */
  function DeliverMessages(v: R.RecvView): Delivered
    decreases |v.win|
  {
    if !R.ReadyHead(v) then Delivered(v, [])
    else
      ReadShrinks(v);
      var r := R.ReadInOrder(v);
      if r.pkts.None? then Delivered(r.view, [])
      else
        var rest := DeliverMessages(r.view);
        Delivered(rest.view, [EventOf(r.pkts.value)] + rest.events)
  }

  /** An in-order read only removes filled slots from the head, and at least one if it returns packets. */
  lemma ReadAdvances(v: R.RecvView) returns (m: nat)
    requires R.ReadyHead(v)
    ensures m <= |v.win| && R.ReadInOrder(v).view == R.DropHead(v, m)
    ensures R.ReadInOrder(v).pkts.Some? ==> m > 0 && |R.ReadInOrder(v).pkts.value| > 0
    ensures forall i :: 0 <= i < m ==> !v.win[i].state.Empty?
  {
    var p := v.win[0].pkt.value;
    var n := 1;
    if p.pos.First? {
      R.ScanMessageExact(v.win, 0, p.msgNo);
      var scan := R.ScanMessage(v.win, 0, p.msgNo);
      n := if scan.Complete? then scan.n else if scan.Corrupt? then 1 else 0;
    }
    assert R.DropHead(v, 1) == R.PopHead(v);
    m := 0;
    if n > 0 {
      m := ReleaseAfter(v, n);
    }
  }

  lemma ReleaseAfter(v: R.RecvView, n: nat) returns (m: nat)
    requires n <= |v.win|
    ensures n <= m <= |v.win| && R.ReleaseFillers(R.DropHead(v, n)) == R.DropHead(v, m)
    ensures forall i :: n <= i < m ==> v.win[i].state.Read?
  {
    hide R.ReleaseFillers, R.CountAvailable, R.CountOutOfOrder;
    var d := R.DropHead(v, n);
    R.ReleaseFillersExact(d);
    m := R.ReleaseFillers(d).base - v.base;
    assert v.win[n..][m - n..] == v.win[m..];
    assert forall i :: n <= i < m ==> v.win[i] == d.win[i - n];
  }

  lemma ReadShrinks(v: R.RecvView)
    requires R.ReadyHead(v)
    ensures var r := R.ReadInOrder(v);
            r.pkts.Some? ==> |r.view.win| < |v.win| && |r.pkts.value| > 0
  {
    var m := ReadAdvances(v);
  }

  function Deliver(v: R.RecvView, messageMode: bool): Delivered {
    if messageMode then DeliverMessages(v) else DeliverStream(v)
  }

  /** A data packet's effect on the receiver: where it was placed and what that let through. */
  datatype Received = Received(view: R.RecvView, events: seq<Event>, stored: R.RecvView, result: R.InsertResult)

  function Receive(v: R.RecvView, p: Packet, now: int, cap: nat, messageMode: bool): Received {
    var at := R.Placed(v, p.seqNo, cap);
    if at.None? then Received(v, [], v, R.REFUSED)
    else
      var stored := R.InsertAt(v, at.value, p, now);
      var d := Deliver(stored, messageMode);
      Received(d.view, d.events, stored, R.Report(v, at.value, p.seqNo))
  }

  /** Dropping filled slots at the head does not move the acknowledgement point. */
  lemma DropKeepsAck(v: R.RecvView, n: nat)
    requires n <= |v.win| && forall i :: 0 <= i < n ==> !v.win[i].state.Empty?
    ensures R.AckPoint(R.DropHead(v, n)) == R.AckPoint(v)
  {
    R.AckOffsetUnique(v.win, n + R.AckOffset(v.win[n..]));
  }

  /** Delivery does not move the acknowledgement point. */
  lemma {:induction false} StreamKeepsAck(v: R.RecvView)
    ensures R.AckPoint(DeliverStream(v).view) == R.AckPoint(v)
    decreases |v.win|
  {
    hide R.AckPoint;
    if R.ReadyHead(v) {
      StreamKeepsAck(R.PopHead(v));
      assert R.DropHead(v, 1) == R.PopHead(v);
      DropKeepsAck(v, 1);
    }
  }

  lemma {:induction false} MessagesKeepAck(v: R.RecvView)
    ensures R.AckPoint(DeliverMessages(v).view) == R.AckPoint(v)
    decreases |v.win|
  {
    hide R.AckPoint, R.ReadInOrder;
    if R.ReadyHead(v) {
      var m := ReadAdvances(v);
      DropKeepsAck(v, m);
      if R.ReadInOrder(v).pkts.Some? {
        MessagesKeepAck(R.ReadInOrder(v).view);
      }
    }
  }
}
