/**
 * The established connection (internal/core/conn.go): the object that owns both rings, proved to
 * compute the functions of DataPath and MailboxRuns. Stream mode or message mode; no encryption,
 * FEC, too-late drop or reorder tolerance.
 */
module Connection {
  import opened SeqNum
  import opened Bits
  import opened Packets
  import opened SendWindow
  import opened SendRing
  import opened DataPath
  import R = RecvWindow
  import RecvRing
  import M = MailboxRuns
  import Ring

  const SYN_INTERVAL := 10_000
  const LITE_ACK_PERIOD := 64
  const MAX_NAK := 10_000

  datatype Output =
    | SendPacket(p: Packet)
    | SendAck(ackSeq: Num, lite: bool, available: nat)
    | SendNak(losses: seq<Num>)
    | ArmPacing(deadline: int)

  function Packeted(ps: seq<Packet>): (r: seq<Output>)
    ensures |r| == |ps|
  {
    seq(|ps|, i requires 0 <= i < |ps| => SendPacket(ps[i]))
  }

  /** The pacing timer a stalled pump arms: only when the window has room but nothing is due. */
  function Timer(s: Sender, now: int, flowWindow: int, c: Control): seq<Output> {
    if s.queue != [] && |s.snd.win| < Window(flowWindow, s.rcvFlowWin, c.cwnd) && !Due(s.nextSendTime, now)
    then [ArmPacing(s.nextSendTime)] else []
  }

  function Consecutive(start: Num, n: nat): (r: seq<Num>)
    ensures |r| == n
  {
    if n == 0 then [] else Consecutive(start, n - 1) + [Wrap(start + n - 1)]
  }

  /** The numbers an immediate NAK lists: from the first number on up to the last, at most MAX_NAK of them. */
  function GapList(start: Num, end: Num): seq<Num> {
    Consecutive(start, Min(Wrap(end as int - start as int) + 1, MAX_NAK))
  }

  /** Buffer sizes of establish: both rings cover the flow window. */
  function RingCapacity(requested: int, flowWindow: int): (c: int)
    ensures c >= flowWindow && c >= requested && (c == flowWindow || c == if requested <= 0 then 8192 else requested)
  {
    Max(if requested <= 0 then 8192 else requested, flowWindow)
  }

  function NakFor(r: R.InsertResult): seq<Output> {
    if r.HasGap() then [SendNak(GapList(r.gapStart, r.gapEnd))] else []
  }

  /** A lite acknowledgement goes out every LITE_ACK_PERIOD * light stored packets. */
  function LiteAckFor(result: R.InsertResult, stored: R.RecvView, count: nat, light: nat): seq<Output> {
    if result.inserted && light > 0 && count >= LITE_ACK_PERIOD * light
    then [SendAck(Wrap(R.AckPoint(stored)), true, 0)] else []
  }

  /** The lite acknowledgement counter is the number of whole periods, plus one. */
  predicate InStride(count: nat, light: nat) {
    LITE_ACK_PERIOD * (light - 1) <= count < LITE_ACK_PERIOD * light
  }

  /** A lite acknowledgement goes out with exactly every 64th packet stored since the last full one. */
  lemma LiteAckExact(result: R.InsertResult, stored: R.RecvView, count: nat, light: nat)
    requires result.inserted && InStride(count, light)
    ensures var lite := LiteAckFor(result, stored, count + 1, light);
            && (lite != [] <==> (count + 1) % LITE_ACK_PERIOD == 0)
            && InStride(count + 1, light + |lite|)
  {
  }

  /**
   * When pump stops with something to send and room for it, it has armed the timer for the deadline it
   * waits for, and otherwise none.
   */
  lemma {:induction false} StalledIsTimed(s: Sender, now: int, wireTS: nat, flowWindow: int, ctl: nat -> Control)
    ensures var r := Pump(s, now, wireTS, flowWindow, ctl, 0); var c := ctl(|r.sent|);
            var waits := r.sender.queue != [] && RoomFor(r.sender, |r.sender.snd.win|, flowWindow, c.cwnd);
            && Timer(r.sender, now, flowWindow, c) == (if waits then [ArmPacing(r.sender.nextSendTime)] else [])
            && (waits ==> now < r.sender.nextSendTime)
  {
    hide Pump, Window, SentAt;
    var r := Pump(s, now, wireTS, flowWindow, ctl, 0);
    PumpExact(s, now, wireTS, flowWindow, ctl, 0);
    WindowExact(flowWindow, r.sender.rcvFlowWin, ctl(|r.sent|).cwnd, |r.sender.snd.win|);
  }

  lemma {:induction false} ConsecutiveAt(start: Num, n: nat, i: nat)
    requires i < n
    ensures Consecutive(start, n)[i] == Wrap(start as int + i)
  {
    hide Wrap;
    if i < n - 1 {
      ConsecutiveAt(start, n - 1, i);
    }
  }

  /** An immediate NAK for the gap u .. v lists exactly its numbers in order, the first 10000 of them. */
  lemma GapListExact(u: int, v: int)
    requires u <= v < u + SPACE
    ensures var l := GapList(Wrap(u), Wrap(v));
            |l| == Min(v - u + 1, MAX_NAK) && forall i :: 0 <= i < |l| ==> l[i] == Wrap(u + i)
  {
    hide Consecutive;
    var l := GapList(Wrap(u), Wrap(v));
    WrapDifference(u, v);
    forall i | 0 <= i < |l|
      ensures l[i] == Wrap(u + i)
    {
      ConsecutiveAt(Wrap(u), |l|, i);
      WrapOfSum(u, i);
    }
  }

  lemma WrapDifference(u: int, v: int)
    requires u <= v < u + SPACE
    ensures Wrap(Wrap(v) as int - Wrap(u) as int) == v - u
  {
    var q, r := u / SPACE, v / SPACE;
    assert u == q * SPACE + Wrap(u) && v == r * SPACE + Wrap(v);
    assert Wrap(v) as int - Wrap(u) as int == v - u - (r - q) * SPACE;
    assert r - q == 0 || r - q == 1;
  }

  class Conn {
    const sendBuf: SendBuffer
    const recvBuf: RecvRing.RecvBuffer
    const payloadSize: int
    const flowWindow: int
    const messageMode: bool

    var sendQueue: seq<Frame>
    var msgNumber: nat
    var nextSendTime: int
    var rcvFlowWin: int
    var rcvPktCount: nat
    var lightACKCount: nat
    var lastFullACKTime: int
    var rcvLastAckAck: Num
    var outputs: seq<Output>
    var events: seq<Event>

    ghost predicate Valid()
      reads this, sendBuf, sendBuf.entries, recvBuf, recvBuf.entries
    {
      && sendBuf.Valid() && recvBuf.Valid()
      && |sendBuf.view.win| <= flowWindow <= sendBuf.entries.Length
      && messageMode == recvBuf.messageAPI
      && InStride(rcvPktCount, lightACKCount)
    }

    ghost function SenderView(): Sender
      reads this, sendBuf
    {
      Sender(sendQueue, sendBuf.view, nextSendTime, rcvFlowWin)
    }

    /** establish: rings sized to cover the flow window. */
    constructor (payloadSize: int, bufferCapacity: int, flowWindow: int, message: bool,
                 sendISN: Num, recvISN: Num, ghost sendBase: int, ghost recvBase: int)
      requires 0 < flowWindow && RingCapacity(bufferCapacity, flowWindow) <= Pow2(29)
      requires sendISN == Wrap(sendBase) && recvISN == Wrap(recvBase)
      ensures Valid() && fresh(sendBuf) && fresh(recvBuf) && fresh(sendBuf.entries) && fresh(recvBuf.entries)
      ensures SenderView() == Sender([], SendView(sendBase, []), 0, 0)
      ensures recvBuf.view == R.RecvView(recvBase, []) && recvBuf.firstReadableOOO == -1 && outputs == []
              && events == []
      ensures msgNumber == 0 && rcvPktCount == 0 && lightACKCount == 1 && lastFullACKTime == 0
              && rcvLastAckAck == recvISN
      ensures sendBuf.entries.Length == NextPow2(RingCapacity(bufferCapacity, flowWindow)) == recvBuf.entries.Length
      ensures this.flowWindow == flowWindow && this.messageMode == message && this.payloadSize == payloadSize
    {
      hide Wrap, Pow2, NextPow2, Ring.Holds;
      sendBuf := new SendBuffer(RingCapacity(bufferCapacity, flowWindow), sendISN, sendBase);
      recvBuf := new RecvRing.RecvBuffer(RingCapacity(bufferCapacity, flowWindow), recvISN, message, recvBase);
      this.payloadSize := payloadSize;
      this.flowWindow := flowWindow;
      messageMode := message;
      sendQueue, msgNumber, nextSendTime, rcvFlowWin := [], 0, 0, 0;
      rcvPktCount, lightACKCount, lastFullACKTime, rcvLastAckAck := 0, 1, 0, recvISN;
      outputs, events := [], [];
    }

    // ---- send path ----

    method WriteMsg(now: int, wireTS: nat, payload: Bytes, order: bool, srcTime: nat, forced: Option<nat>,
                    ctl: nat -> Control)
      requires Valid()
      modifies this`sendQueue, this`msgNumber, this`nextSendTime, this`outputs, sendBuf, sendBuf.entries
      ensures Valid()
      ensures msgNumber == if forced.Some? then forced.value % 0x0400_0000 else NextMsgNo(old(msgNumber))
      ensures var w := Write(payload, msgNumber, order, srcTime);
              var q := old(SenderView()).(queue := old(sendQueue) + FramesOf(w, payloadSize, false, wireTS));
              var r := Pump(q, now, wireTS, flowWindow, ctl, 0);
              && SenderView() == r.sender
              && outputs == old(outputs) + Packeted(r.sent) + Timer(r.sender, now, flowWindow, ctl(|r.sent|))
    {
      msgNumber := if forced.Some? then forced.value % 0x0400_0000 else NextMsgNo(msgNumber);
      Enqueue(Write(payload, msgNumber, order, srcTime), wireTS);
      PumpSend(now, wireTS, ctl);
    }

    /** Queues a write as one frame, or fragments it. */
    method Enqueue(w: Write, wireTS: nat)
      modifies this`sendQueue
      ensures sendQueue == old(sendQueue) + FramesOf(w, payloadSize, false, wireTS)
    {
      hide FragmentsFrom;
      var payload, ps := w.payload, payloadSize;
      if ps <= 0 || |payload| <= ps {
        sendQueue := sendQueue + [Frame(payload, w.msgNo, Single, w.order, w.srcTime)];
        return;
      }
      var ts := if w.srcTime == 0 then wireTS else w.srcTime;
      var off := 0;
      while off < |payload|
        invariant 0 <= off
        invariant sendQueue + FragmentsFrom(w, ps, off, ts) == old(sendQueue) + FragmentsFrom(w, ps, 0, ts)
        decreases |payload| - off
      {
        var end := if off + ps > |payload| then |payload| else off + ps;
        var pos := if off == 0 then (if end == |payload| then Single else First)
                   else (if end == |payload| then Last else Middle);
        var f := Frame(payload[off..end], w.msgNo, pos, w.order, ts);
        FragmentTurn(w, ps, off, ts, sendQueue);
        sendQueue := sendQueue + [f];
        off := off + ps;
      }
      NoFragments(w, ps, off, ts, sendQueue);
    }

    /** pump: the paced, window-limited send loop. */
    method PumpSend(now: int, wireTS: nat, ctl: nat -> Control)
      requires Valid()
      modifies this`sendQueue, this`nextSendTime, this`outputs, sendBuf, sendBuf.entries
      ensures Valid()
      ensures var r := Pump(old(SenderView()), now, wireTS, flowWindow, ctl, 0);
              && SenderView() == r.sender
              && outputs == old(outputs) + Packeted(r.sent) + Timer(r.sender, now, flowWindow, ctl(|r.sent|))
    {
      hide Pump, Wrap, BuildPacket, NextDeadline, InStride;
      var n := 0;
      ghost var all := Pump(SenderView(), now, wireTS, flowWindow, ctl, 0);
      ghost var sent: seq<Packet> := [];
      assert outputs + Packeted([]) == outputs && [] + all.sent == all.sent;
      while |sendQueue| > 0
        invariant Valid() && n == |sent|
        invariant all.sender == Pump(SenderView(), now, wireTS, flowWindow, ctl, n).sender
        invariant all.sent == sent + Pump(SenderView(), now, wireTS, flowWindow, ctl, n).sent
        invariant outputs == old(outputs) + Packeted(sent)
        decreases |sendQueue|
      {
        PumpTurn(SenderView(), now, wireTS, flowWindow, ctl, n);
        if sendBuf.size >= Window(flowWindow, rcvFlowWin, ctl(n).cwnd) {
          assert all.sent == sent;
          return;
        }
        if nextSendTime != 0 && now < nextSendTime {
          assert all.sent == sent;
          outputs := outputs + [ArmPacing(nextSendTime)];
          return;
        }
        var p := SendHead(now, wireTS, ctl(n));
        assert Packeted(sent + [p]) == Packeted(sent) + [SendPacket(p)];
        sent := sent + [p];
        n := n + 1;
      }
      PumpTurn(SenderView(), now, wireTS, flowWindow, ctl, n);
      assert all.sent == sent;
    }

    /** One turn of pump: sendOne, sendData and the pacing update. The ring has room, so Push succeeds. */
    method SendHead(now: int, wireTS: nat, c: Control) returns (p: Packet)
      requires Valid() && sendQueue != [] && |sendBuf.view.win| < flowWindow
      modifies this`sendQueue, this`nextSendTime, this`outputs, sendBuf, sendBuf.entries
      ensures Valid()
      ensures p == BuildPacket(old(sendQueue)[0], old(sendBuf.view).Next(), wireTS)
      ensures SenderView() == SendOne(old(SenderView()), now, wireTS, c)
      ensures outputs == old(outputs) + [SendPacket(p)]
    {
      hide Wrap;
      var f := sendQueue[0];
      sendQueue := sendQueue[1..];
      var ts := if f.srcTime == 0 then wireTS else f.srcTime;
      p := Packet(sendBuf.nextSeq, ts, f.pos, f.order, false, f.msgNo, f.payload);
      var ok := sendBuf.Push(p, now);
      assert ok;
      outputs := outputs + [SendPacket(p)];
      if nextSendTime == 0 {
        nextSendTime := now + c.interval;
      } else if now - nextSendTime > MAX_PACING_BURST {
        nextSendTime := now + c.interval;
      } else {
        nextSendTime := nextSendTime + c.interval;
      }
    }

    method HandleACK(now: int, wireTS: nat, ackSeq: Num, lite: bool, available: nat, ctl: nat -> Control)
      requires Valid()
      modifies this`sendQueue, this`nextSendTime, this`rcvFlowWin, this`outputs, sendBuf, sendBuf.entries
      ensures Valid()
      ensures var r := Pump(HandleAck(old(SenderView()), ackSeq, lite, available), now, wireTS, flowWindow, ctl, 0);
              && SenderView() == r.sender
              && outputs == old(outputs) + Packeted(r.sent) + Timer(r.sender, now, flowWindow, ctl(|r.sent|))
    {
      var ackd := sendBuf.Ack(ackSeq);
      if lite {
        if ackd > 0 && rcvFlowWin > 0 {
          rcvFlowWin := rcvFlowWin - ackd;
        }
      } else {
        rcvFlowWin := available;
      }
      assert SenderView() == HandleAck(old(SenderView()), ackSeq, lite, available);
      hide Pump, HandleAck, Released;
      PumpSend(now, wireTS, ctl);
    }

    method HandleNAK(now: int, losses: seq<Num>, rtt: int, rttVar: int)
      requires Valid()
      modifies this`outputs, sendBuf, sendBuf.entries
      ensures Valid()
      ensures var gate := Max(rtt - 4 * rttVar, 0);
              var r := NakTimed(old(sendBuf.view), losses, now, now - gate);
              rtt > 0 ==> sendBuf.view == SendView(old(sendBuf.view).base, r.win)
                          && outputs == old(outputs) + Packeted(r.out)
      ensures rtt <= 0 ==> sendBuf.view == old(sendBuf.view)
                           && outputs == old(outputs) + Packeted(Nak(old(sendBuf.view), losses))
    {
      hide Wrap, NakTimed, Nak;
      if rtt > 0 {
        var rexmit := sendBuf.NakTimed(losses, now, rtt, rttVar);
        Emit(rexmit);
      } else {
        var rexmit := sendBuf.Nak(losses);
        Emit(rexmit);
      }
    }

    method RetransmitAll()
      requires Valid()
      modifies this`outputs
      ensures Valid() && outputs == old(outputs) + Packeted(Unacked(sendBuf.view))
    {
      var rexmit := sendBuf.GetAllUnacked();
      Emit(rexmit);
    }

    /** Queues retransmissions one by one. */
    method Emit(ps: seq<Packet>)
      modifies this`outputs
      ensures outputs == old(outputs) + Packeted(ps)
    {
      var i := 0;
      assert outputs + Packeted([]) == outputs;
      while i < |ps|
        invariant 0 <= i <= |ps| && outputs == old(outputs) + Packeted(ps[..i])
      {
        assert Packeted(ps[..i + 1]) == Packeted(ps[..i]) + [SendPacket(ps[i])];
        outputs := outputs + [SendPacket(ps[i])];
        i := i + 1;
      }
      assert ps[..i] == ps;
    }

    // ---- receive path ----

    method HandleData(now: int, p: Packet)
      requires Valid()
      modifies this`outputs, this`events, this`rcvPktCount, this`lightACKCount, recvBuf, recvBuf.entries
      ensures Valid() && old(recvBuf.Box()).cap > 0
      ensures var r := M.ReceiveBox(old(recvBuf.Box()), p, now, messageMode);
              var lite := LiteAckFor(r.result, r.stored, old(rcvPktCount) + 1, old(lightACKCount));
              && recvBuf.Box() == r.box && events == old(events) + r.events
              && outputs == old(outputs) + NakFor(r.result) + lite
              && rcvPktCount == old(rcvPktCount) + (if r.result.inserted then 1 else 0)
              && lightACKCount == old(lightACKCount) + |lite|
              && (r.result.inserted ==> (lite != [] <==> rcvPktCount % LITE_ACK_PERIOD == 0))
    {
      hide Wrap, GapList, R.AckPoint, M.DeliverBox, DeliverStream, R.Report, Ring.Holds, R.CountAvailable,
           R.CountOutOfOrder, R.Completed, InStride, R.Placed, RecvRing.InsertBox, R.InsertAt, Ring.IsCapacity;
      ghost var b := recvBuf.Box();
      RingNotEmpty(recvBuf);
      var res := recvBuf.Insert(p, now);
      if !res.inserted {
        NotInserted(b.view, p, b.cap);
        return;
      }
      Reply(res);
      DeliverNow();
    }

    /** What a stored packet is answered with at once: the gap it opened, and a lite acknowledgement when due. */
    method Reply(res: R.InsertResult)
      requires Valid() && res.inserted
      modifies this`outputs, this`rcvPktCount, this`lightACKCount
      ensures Valid()
      ensures var lite := LiteAckFor(res, recvBuf.view, old(rcvPktCount) + 1, old(lightACKCount));
              && outputs == old(outputs) + NakFor(res) + lite
              && rcvPktCount == old(rcvPktCount) + 1 && lightACKCount == old(lightACKCount) + |lite|
              && (lite != [] <==> rcvPktCount % LITE_ACK_PERIOD == 0)
    {
      hide Wrap, GapList, R.AckPoint, Ring.Holds, InStride;
      LiteAckExact(res, recvBuf.view, rcvPktCount, lightACKCount);
      rcvPktCount := rcvPktCount + 1;
      if res.HasGap() {
        SendImmediateNAK(res.gapStart, res.gapEnd);
      }
      if lightACKCount > 0 && rcvPktCount >= LITE_ACK_PERIOD * lightACKCount {
        SendLiteACK();
        lightACKCount := lightACKCount + 1;
      }
    }

    method SendImmediateNAK(gapStart: Num, gapEnd: Num)
      modifies this`outputs
      ensures outputs == old(outputs) + [SendNak(GapList(gapStart, gapEnd))]
    {
      hide Wrap, Inc;
      var s := gapStart;
      var losses: seq<Num> := [];
      ghost var d := Wrap(gapEnd as int - gapStart as int);
      GapEnd(gapStart, gapEnd);
      while true
        invariant |losses| <= d && |losses| < MAX_NAK && s == Wrap(gapStart as int + |losses|)
        invariant losses == Consecutive(gapStart, |losses|) && outputs == old(outputs)
        decreases d - |losses|
      {
        WrapInjective(gapStart as int + |losses|, gapStart as int + d);
        losses := losses + [s];
        if s == gapEnd || |losses| >= MAX_NAK {
          break;
        }
        WrapArith(gapStart as int + |losses| - 1, 0);
        s := Inc(s);
      }
      outputs := outputs + [SendNak(losses)];
    }

    method SendLiteACK()
      requires recvBuf.Valid()
      modifies this`outputs
      ensures outputs == old(outputs) + [SendAck(Wrap(R.AckPoint(recvBuf.view)), true, 0)]
    {
      var ackSeq := recvBuf.AckSequence();
      outputs := outputs + [SendAck(ackSeq, true, 0)];
    }

    /** The periodic acknowledgement; one the peer has confirmed is not repeated within a SYN interval. */
    method SendFullACK(now: int)
      requires Valid()
      modifies this`outputs, this`lastFullACKTime, this`rcvPktCount, this`lightACKCount
      ensures Valid()
      ensures var ack := Wrap(R.AckPoint(recvBuf.view));
              if ack == rcvLastAckAck && now - old(lastFullACKTime) < SYN_INTERVAL
              then outputs == old(outputs) && lightACKCount == old(lightACKCount) && rcvPktCount == old(rcvPktCount)
              else && outputs == old(outputs)
                      + [SendAck(ack, false, R.Advertised(recvBuf.view, ack, recvBuf.entries.Length))]
                   && lastFullACKTime == now && rcvPktCount == 0 && lightACKCount == 1
    {
      var ackSeq := recvBuf.AckSequence();
      var needFull := now - lastFullACKTime >= SYN_INTERVAL;
      if ackSeq == rcvLastAckAck && !needFull {
        return;
      }
      var available := recvBuf.AvailableSize(ackSeq);
      outputs := outputs + [SendAck(ackSeq, false, available)];
      lastFullACKTime := now;
      rcvPktCount := 0;
      lightACKCount := 1;
    }

    method SendPeriodicNAK()
      requires Valid()
      modifies this`outputs
      ensures Valid()
      ensures var losses := R.Losses(recvBuf.view, |recvBuf.view.win|);
              outputs == old(outputs) + if losses == [] then [] else [SendNak(losses)]
    {
      var losses := recvBuf.GenerateLossList();
      if |losses| > 0 {
        outputs := outputs + [SendNak(losses)];
      }
    }

    method DeliverNow()
      requires Valid()
      modifies this`events, recvBuf, recvBuf.entries
      ensures Valid() && old(recvBuf.Box()).cap > 0
      ensures messageMode ==>
                var d := M.DeliverBox(old(recvBuf.Box())); recvBuf.Box() == d.box && events == old(events) + d.events
      ensures !messageMode ==>
                var d := DeliverStream(old(recvBuf.view));
                recvBuf.Box() == old(recvBuf.Box()).(view := d.view) && events == old(events) + d.events
    {
      RingNotEmpty(recvBuf);
      if messageMode {
        DeliverAllMessages();
      } else {
        DeliverAll();
      }
    }

    method DeliverAll()
      requires Valid() && !messageMode
      modifies this`events, recvBuf, recvBuf.entries
      ensures Valid()
      ensures var d := DeliverStream(old(recvBuf.view));
              recvBuf.Box() == old(recvBuf.Box()).(view := d.view) && events == old(events) + d.events
      ensures !R.ReadyHead(recvBuf.view)
    {
      hide InStride, Ring.Holds, R.CountAvailable, R.CountOutOfOrder, Ring.IsCapacity, Wrap;
      ghost var all, done := DeliverStream(recvBuf.view), [];
      while true
        invariant Valid() && recvBuf.firstReadableOOO == old(recvBuf.firstReadableOOO)
        invariant var rest := DeliverStream(recvBuf.view);
                  all.view == rest.view && all.events == done + rest.events
        invariant events == old(events) + done
        decreases |recvBuf.view.win|
      {
        var p := recvBuf.ReadNext();
        if p.None? {
          break;
        }
        assert [p.value][..0] == [];
        EmitMessage([p.value]);
        done := done + [EventOf([p.value])];
      }
    }

    /** Reads messages, in order or out of order, until a read returns nothing. */
    method DeliverAllMessages()
      requires Valid() && messageMode
      modifies this`events, recvBuf, recvBuf.entries
      ensures Valid() && old(recvBuf.Box()).cap > 0
      ensures var d := M.DeliverBox(old(recvBuf.Box()));
              recvBuf.Box() == d.box && events == old(events) + d.events
    {
      hide Wrap, Ring.Holds, R.CountAvailable, R.CountOutOfOrder, RecvRing.ReadBox, Ring.IsCapacity, M.DeliverBox;
      RingNotEmpty(recvBuf);
      ghost var all, done := M.DeliverBox(recvBuf.Box()), [];
      while true
        invariant Valid() && recvBuf.Box().cap > 0
        invariant var rest := M.DeliverBox(recvBuf.Box());
                  all.box == rest.box && all.events == done + rest.events
        invariant events == old(events) + done
        decreases R.CountAvailable(recvBuf.view.win)
      {
        ghost var b := recvBuf.Box();
        M.DeliverTurn(b);
        var pkts := recvBuf.ReadMessage();
        if pkts.None? {
          break;
        }
        EmitMessage(pkts.value);
        done := done + [EventOf(pkts.value)];
      }
    }

    /** Concatenates a message's fragments into one event. */
    method EmitMessage(pkts: seq<Packet>)
      requires |pkts| > 0
      modifies this`events
      ensures events == old(events) + [EventOf(pkts)]
    {
      var data: Bytes := [];
      var i := 0;
      while i < |pkts|
        invariant 0 <= i <= |pkts| && data == Payloads(pkts[..i])
      {
        assert pkts[..i + 1][..i] == pkts[..i];
        data := data + pkts[i].data;
        i := i + 1;
      }
      assert pkts[..i] == pkts;
      events := events + [DataReceived(data, pkts[0].seqNo, pkts[0].msgNo, pkts[0].pos)];
    }
  }

  lemma RingNotEmpty(recvBuf: RecvRing.RecvBuffer)
    requires recvBuf.Valid()
    ensures recvBuf.Box().cap > 0
  {
    Ring.CapacityBounds(recvBuf.entries.Length);
  }

  /** An insertion is reported as one exactly if the packet was placed. */
  lemma NotInserted(v: R.RecvView, p: Packet, cap: nat)
    ensures var at := R.Placed(v, p.seqNo, cap);
            at.Some? ==> R.Report(v, at.value, p.seqNo).inserted
  {
  }

  lemma GapEnd(start: Num, end: Num)
    ensures var d := Wrap(end as int - start as int); Wrap(start as int + d) == end && Wrap(start as int) == start
  {
    WrapOfSum(end as int - start as int, start);
  }

  lemma FragmentTurn(w: Write, ps: nat, off: nat, ts: nat, before: seq<Frame>)
    requires ps > 0 && off < |w.payload|
    ensures var end := Min(off + ps, |w.payload|);
            var f := Frame(w.payload[off..end], w.msgNo, FragmentPosition(off, end, |w.payload|), w.order, ts);
            before + FragmentsFrom(w, ps, off, ts) == before + [f] + FragmentsFrom(w, ps, off + ps, ts)
  {
  }

  lemma {:induction false} NoFragments(w: Write, ps: nat, off: nat, ts: nat, before: seq<Frame>)
    requires ps > 0 && off >= |w.payload|
    ensures before + FragmentsFrom(w, ps, off, ts) == before
  {
  }
}
