/**
 * Two connection objects, the sending side of one and the receiving side of the other, joined by an
 * unreliable channel: every entry point takes the step of the Arq state machine.
 */
module ArqLink {
  import opened SeqNum
  import opened Bits
  import opened Packets
  import opened DataPath
  import opened Connection
  import opened Arq
  import W = SendWindow
  import R = RecvWindow
  import M = MailboxRuns

  /** The system after b has put its outputs on the wire. */
  ghost function Said(cfg: Config, s: Sys, outs: seq<Output>): Sys
  {
    if outs == [] then s
    else
      var t := Said(cfg, s, outs[..|outs| - 1]);
      match outs[|outs| - 1]
      case SendAck(_, lite, available) => Do(cfg, t, PutAck(lite, available))
      case SendNak(losses) => Do(cfg, t, PutNak(losses))
      case _ => t
  }

  /** Every acknowledgement among the outputs is of the current acknowledgement point. */
  ghost predicate Truthful(outs: seq<Output>, v: R.RecvView) {
    forall i :: 0 <= i < |outs| && outs[i].SendAck? ==> outs[i].ackSeq == Wrap(R.AckPoint(v))
  }

  /** Speaking changes the channel and nothing else, and keeps the invariant. */
  lemma {:induction false} SaidKeeps(cfg: Config, s: Sys, outs: seq<Output>)
    requires cfg.Valid() && Inv(cfg, s)
    ensures var t := Said(cfg, s, outs); Inv(cfg, t) && t == s.(net := t.net) && s.net <= t.net
  {
    hide Inv, Wrap;
    if outs != [] {
      SaidKeeps(cfg, s, outs[..|outs| - 1]);
      var t := Said(cfg, s, outs[..|outs| - 1]);
      match outs[|outs| - 1]
      case SendAck(_, lite, available) => StepKeeps(cfg, t, PutAck(lite, available));
      case SendNak(losses) => StepKeeps(cfg, t, PutNak(losses));
      case _ =>
    }
  }

  lemma IsWrapped(n: Num)
    ensures Wrap(n) == n
  {
  }

  /** The endpoints share nothing. */
  ghost predicate Apart(a: Conn, b: Conn)
    reads a, b
  {
    && a != b && a.sendBuf != b.sendBuf && a.recvBuf != b.recvBuf
    && a.sendBuf.entries != b.sendBuf.entries && a.recvBuf.entries != b.recvBuf.entries
  }

  class Link {
    const a: Conn
    const b: Conn
    ghost const cfg: Config
    ghost var s: Sys

    ghost predicate Coupled()
      reads this, a, a.sendBuf, b, b.recvBuf
    {
      && a.SenderView() == s.sender && b.recvBuf.view == s.view && b.events == s.events
      && cfg.flowWindow == a.flowWindow && cfg.payloadSize == a.payloadSize
      && cfg.recvCap == b.recvBuf.entries.Length && cfg.messageMode == b.messageMode
      && (cfg.messageMode ==> M.AllInOrder(b.recvBuf.Box()))
    }

    ghost predicate Valid()
      reads this, a, a.sendBuf, a.sendBuf.entries, a.recvBuf, a.recvBuf.entries,
            b, b.sendBuf, b.sendBuf.entries, b.recvBuf, b.recvBuf.entries
    {
      && Apart(a, b) && a.Valid() && b.Valid() && cfg.Valid() && Coupled() && Inv(cfg, s) && Drained(cfg, s.view)
    }

    constructor (payloadSize: int, bufferCapacity: int, flowWindow: int, message: bool, isn: Num)
      requires 0 < flowWindow && RingCapacity(bufferCapacity, flowWindow) <= Pow2(29)
      requires flowWindow + NextPow2(RingCapacity(bufferCapacity, flowWindow)) < HALF
      ensures Valid() && s == Init(cfg) && fresh(a) && fresh(b)
    {
      hide Wrap, Pow2, NextPow2, Inv, RingCapacity, Conn.Valid;
      IsWrapped(isn);
      IsWrapped(0);
      var sending := new Conn(payloadSize, bufferCapacity, flowWindow, message, isn, 0, isn, 0);
      var receiving := new Conn(payloadSize, bufferCapacity, flowWindow, message, 0, isn, 0, isn);
      CanReceive(receiving);
      a, b := sending, receiving;
      cfg := Config(isn, payloadSize, flowWindow, receiving.recvBuf.entries.Length, message);
      s := Init(Config(isn, payloadSize, flowWindow, receiving.recvBuf.entries.Length, message));
      new;
      InitInv(cfg);
      StartsDrained(cfg);
    }

    // ---- the sending side ----

    method Write(now: int, wireTS: nat, payload: Bytes, order: bool, srcTime: nat, forced: Option<nat>,
                 ctl: nat -> Control)
      requires Valid() && (cfg.messageMode ==> order)
      modifies this, a, a.sendBuf, a.sendBuf.entries
      ensures var w := DataPath.Write(payload, a.msgNumber, order, srcTime);
              Valid() && s == Do(cfg, old(s), DoWrite(w, now, wireTS, ctl))
      ensures old(a.outputs) + Packeted(s.log[|old(s).log|..]) <= a.outputs
    {
      hide Inv, Wrap, Pump, FramesOf;
      a.WriteMsg(now, wireTS, payload, order, srcTime, forced, ctl);
      ghost var step := DoWrite(DataPath.Write(payload, a.msgNumber, order, srcTime), now, wireTS, ctl);
      StepKeeps(cfg, s, step);
      StepDrains(cfg, s, step);
      s := Do(cfg, s, step);
    }

    method PacingTimer(now: int, wireTS: nat, ctl: nat -> Control)
      requires Valid()
      modifies this, a, a.sendBuf, a.sendBuf.entries
      ensures Valid() && s == Do(cfg, old(s), DoPump(now, wireTS, ctl))
      ensures old(a.outputs) + Packeted(s.log[|old(s).log|..]) <= a.outputs
    {
      hide Inv, Wrap, Pump;
      a.PumpSend(now, wireTS, ctl);
      StepKeeps(cfg, s, DoPump(now, wireTS, ctl));
      StepDrains(cfg, s, DoPump(now, wireTS, ctl));
      s := Do(cfg, s, DoPump(now, wireTS, ctl));
    }

    method TakeAck(m: Msg, now: int, wireTS: nat, ctl: nat -> Control)
      requires Valid() && m.Ack? && m in s.net && Fresh(m.tag, s.sender.snd.base)
      modifies this, a, a.sendBuf, a.sendBuf.entries
      ensures Valid() && s == Do(cfg, old(s), GetAck(m, now, wireTS, ctl))
      ensures old(a.outputs) + Packeted(s.log[|old(s).log|..]) <= a.outputs
    {
      hide Inv, Wrap, Pump, HandleAck;
      a.HandleACK(now, wireTS, m.ackSeq, m.lite, m.available, ctl);
      StepKeeps(cfg, s, GetAck(m, now, wireTS, ctl));
      StepDrains(cfg, s, GetAck(m, now, wireTS, ctl));
      s := Do(cfg, s, GetAck(m, now, wireTS, ctl));
    }

    method TakeNak(m: Msg, now: int, rtt: int, rttVar: int)
      requires Valid() && m.NakReport? && m in s.net
      modifies this, a, a.sendBuf, a.sendBuf.entries
      ensures Valid() && old(s).sender.snd.AllUsed()
      ensures s == Do(cfg, old(s), if rtt > 0 then GetNak(m, now, now - W.Max(rtt - 4 * rttVar, 0)) else GetFirstNak(m))
      ensures var v := old(s).sender.snd;
              var out := if rtt > 0 then W.NakTimed(v, m.losses, now, now - W.Max(rtt - 4 * rttVar, 0)).out
                         else W.Nak(v, m.losses);
              a.outputs == old(a.outputs) + Packeted(out)
    {
      hide Inv, Wrap, W.NakTimed, W.Nak, Resent;
      a.HandleNAK(now, m.losses, rtt, rttVar);
      ghost var step := if rtt > 0 then GetNak(m, now, now - W.Max(rtt - 4 * rttVar, 0)) else GetFirstNak(m);
      StepKeeps(cfg, s, step);
      StepDrains(cfg, s, step);
      s := Do(cfg, s, step);
    }

    method Timeout()
      requires Valid()
      modifies this, a
      ensures Valid() && old(s).sender.snd.AllUsed() && s == Do(cfg, old(s), DoRetransmitAll)
      ensures a.outputs == old(a.outputs) + Packeted(W.Unacked(old(s).sender.snd))
    {
      hide Inv, Wrap, Resent, W.Unacked;
      a.RetransmitAll();
      StepKeeps(cfg, s, DoRetransmitAll);
      StepDrains(cfg, s, DoRetransmitAll);
      s := Do(cfg, s, DoRetransmitAll);
    }

    // ---- the receiving side ----

    /** A data packet; what the receiver says in reply enters the channel. */
    method TakeData(m: Msg, now: int)
      requires Valid() && m.Data? && m in s.net && Fresh(m.tag, s.view.base)
      modifies this, b, b.recvBuf, b.recvBuf.entries
      ensures Valid() && old(b.outputs) <= b.outputs
      ensures s == Said(cfg, Do(cfg, old(s), GetData(m, now)), b.outputs[|old(b.outputs)|..])
      ensures Truthful(b.outputs[|old(b.outputs)|..], s.view)
    {
      hide Inv, Wrap, R.AckPoint, Receive, M.ReceiveBox, M.AllInOrder, NakFor, LiteAckFor, Said, Truthful;
      if cfg.messageMode {
        PacketsAreOrdered(cfg, s, m);
      }
      ghost var box := b.recvBuf.Box();
      M.ReceiveInOrder(box, m.p, now, cfg.messageMode);
      ghost var r := Receive(s.view, m.p, now, cfg.recvCap, cfg.messageMode);
      ReceiveKeepsAck(s.view, m.p, now, cfg.recvCap, cfg.messageMode);
      TruthfulReply(r, b.rcvPktCount + 1, b.lightACKCount);
      b.HandleData(now, m.p);
      StepKeeps(cfg, s, GetData(m, now));
      StepDrains(cfg, s, GetData(m, now));
      s := Do(cfg, s, GetData(m, now));
      ghost var outs := NakFor(r.result) + LiteAckFor(r.result, r.stored, old(b.rcvPktCount) + 1, old(b.lightACKCount));
      assert b.outputs[|old(b.outputs)|..] == outs;
      SaidKeeps(cfg, s, outs);
      s := Said(cfg, s, outs);
    }

    method FullAck(now: int)
      requires Valid()
      modifies this, b
      ensures Valid() && old(b.outputs) <= b.outputs
      ensures s == Said(cfg, old(s), b.outputs[|old(b.outputs)|..]) && Truthful(b.outputs[|old(b.outputs)|..], s.view)
    {
      hide Inv, Wrap, R.AckPoint, R.Advertised, M.AllInOrder;
      b.SendFullACK(now);
      ghost var outs := b.outputs[|old(b.outputs)|..];
      SaidKeeps(cfg, s, outs);
      s := Said(cfg, s, outs);
    }

    method PeriodicNak()
      requires Valid()
      modifies this, b
      ensures Valid() && old(b.outputs) <= b.outputs
      ensures s == Said(cfg, old(s), b.outputs[|old(b.outputs)|..])
    {
      hide Inv, Wrap, R.AckPoint, R.Losses, M.AllInOrder;
      b.SendPeriodicNAK();
      ghost var outs := b.outputs[|old(b.outputs)|..];
      SaidKeeps(cfg, s, outs);
      s := Said(cfg, s, outs);
    }

    /**
     * What the receiving object has delivered, at any time, is a prefix of what was written, and holds
     * nothing back: in stream mode everything it acknowledges, in message mode everything before the first
     * message of which it lacks a packet.
     */
    lemma Delivers()
      requires Valid()
      ensures !cfg.messageMode ==>
                && EventData(b.events) <= Written(s.writes) && 0 <= R.AckPoint(b.recvBuf.view) - cfg.isn <= |s.log|
                && EventData(b.events) == Payloads(s.log[..R.AckPoint(b.recvBuf.view) - cfg.isn])
      ensures cfg.messageMode ==>
                && |b.events| <= |s.writes|
                && (forall k :: 0 <= k < |b.events| ==>
                      b.events[k].data == s.writes[k].payload && b.events[k].msgNo == s.writes[k].msgNo)
                && (|b.events| < |s.writes| ==> exists j: nat :: LacksFrame(cfg, s, |b.events|, j))
    {
      hide EventData, Payloads, Written, R.AckPoint, Drained;
      if cfg.messageMode {
        InvReports(cfg, s);
        if |s.events| < |s.groups| {
          DrainedMessages(cfg, s);
        }
      } else {
        StreamPrefix(cfg, s);
        DrainedStream(cfg, s);
      }
    }
  }

  lemma CanReceive(c: Conn)
    requires c.Valid()
    ensures c.recvBuf.entries.Length > 0
  {
    RingNotEmpty(c.recvBuf);
  }

  lemma TruthfulReply(r: Received, count: nat, light: nat)
    requires R.AckPoint(r.view) == R.AckPoint(r.stored)
    ensures Truthful(NakFor(r.result) + LiteAckFor(r.result, r.stored, count, light), r.view)
  {
    hide R.AckPoint, Wrap, GapList;
  }

  /** The lite acknowledgement is computed before delivery; the point is the same afterwards. */
  lemma ReceiveKeepsAck(v: R.RecvView, p: Packet, now: int, cap: nat, messageMode: bool)
    ensures var r := Receive(v, p, now, cap, messageMode); R.AckPoint(r.view) == R.AckPoint(r.stored)
  {
    hide R.AckPoint, R.Report;
    var at := R.Placed(v, p.seqNo, cap);
    if at.Some? {
      StreamKeepsAck(R.InsertAt(v, at.value, p, now));
      MessagesKeepAck(R.InsertAt(v, at.value, p, now));
    }
  }
}
