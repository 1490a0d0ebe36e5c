/**
 * Two connection objects in message mode with any mix of ordered and unordered messages: what is called
 * on them is a run of ArqMessages.
 */
module ArqMessageLink {
  import opened SeqNum
  import opened Bits
  import opened Packets
  import opened DataPath
  import opened Connection
  import A = Arq
  import L = ArqLink
  import Q = ArqMessages
  import W = SendWindow
  import R = RecvWindow
  import M = MailboxRuns
  import RecvRing

  /** The steps that put the receiver's outputs on the wire. */
  function Replies(outs: seq<Output>): seq<A.Step> {
    if outs == [] then []
    else
      var init := Replies(outs[..|outs| - 1]);
      match outs[|outs| - 1]
      case SendAck(_, lite, available) => init + [A.PutAck(lite, available)]
      case SendNak(losses) => init + [A.PutNak(losses)]
      case _ => init
  }

  /** What the log gained went out, in this order. */
  ghost predicate Emitted(was: seq<Packet>, log: seq<Packet>, outs: seq<Output>, outs': seq<Output>) {
    was <= log && outs + Packeted(log[|was|..]) <= outs'
  }

  // ---- reading does not move the acknowledgement point ----

  lemma {:induction false} MarkKeepsAck(v: R.RecvView, f: nat, l: nat)
    requires f <= l && R.AllHeld(v.win, f, l)
    ensures R.AckPoint(v.(win := R.MarkRange(v.win, f, l))) == R.AckPoint(v)
  {
    hide R.AckPoint;
    Q.SameAck(v.(win := R.MarkRange(v.win, f, l)), v);
  }

  lemma {:induction false} ReleaseKeepsAck(v: R.RecvView)
    ensures R.AckPoint(R.ReleaseFillers(v)) == R.AckPoint(v)
  {
    hide R.AckPoint, R.ReleaseFillers, R.CountAvailable, R.CountOutOfOrder;
    R.ReleaseFillersExact(v);
    DropKeepsAck(v, R.ReleaseFillers(v).base - v.base);
  }

  lemma ReadKeepsAck(b: RecvRing.Mailbox)
    requires b.cap > 0
    ensures R.AckPoint(RecvRing.ReadBox(b).box.view) == R.AckPoint(b.view)
  {
    hide R.AckPoint, R.ReadInOrder, R.ReleaseFillers, R.Walk, RecvRing.Cached, RecvRing.Rescan, R.MarkRange;
    var v, c := b.view, RecvRing.Cached(b.view, b.cache, b.cap);
    if R.ReadyHead(v) {
      InOrderKeepsAck(v);
    } else if c.Some? {
      R.WalkExact(v.win, c.value);
      match R.Walk(v.win, c.value)
      case Ended(l) =>
        MarkKeepsAck(v, c.value, l + 1);
        ReleaseKeepsAck(v.(win := R.MarkRange(v.win, c.value, l + 1)));
      case Broken(k) =>
        if k > c.value {
          MarkKeepsAck(v, c.value, k);
        }
    }
  }

  lemma InOrderKeepsAck(v: R.RecvView)
    requires R.ReadyHead(v)
    ensures R.AckPoint(R.ReadInOrder(v).view) == R.AckPoint(v)
  {
    hide R.AckPoint, R.ReadInOrder;
    var m := ReadAdvances(v);
    DropKeepsAck(v, m);
  }

  lemma {:induction false} DeliverKeepsAck(b: RecvRing.Mailbox)
    requires b.cap > 0
    ensures R.AckPoint(M.DeliverBox(b).box.view) == R.AckPoint(b.view)
    decreases R.CountAvailable(b.view.win)
  {
    hide R.AckPoint, RecvRing.ReadBox, M.DeliverBox, R.CountAvailable;
    ReadKeepsAck(b);
    M.DeliverTurn(b);
    if RecvRing.ReadBox(b).pkts.Some? {
      DeliverKeepsAck(RecvRing.ReadBox(b).box);
    }
  }

  /** The lite acknowledgement is computed before delivery; the point is the same afterwards. */
  lemma TakenKeepsAck(b: RecvRing.Mailbox, p: Packet, now: int)
    requires b.cap > 0
    ensures var r := M.ReceiveBox(b, p, now, true); R.AckPoint(r.box.view) == R.AckPoint(r.stored)
  {
    hide R.AckPoint, M.DeliverBox, RecvRing.InsertBox, R.Report, R.Placed;
    if R.Placed(b.view, p.seqNo, b.cap).Some? {
      Q.InsertCap(b, p, now);
      DeliverKeepsAck(RecvRing.InsertBox(b, p, now));
    }
  }

  lemma TruthfulReply(r: M.Taken, count: nat, light: nat)
    requires R.AckPoint(r.box.view) == R.AckPoint(r.stored)
    ensures L.Truthful(NakFor(r.result) + LiteAckFor(r.result, r.stored, count, light), r.box.view)
  {
    hide R.AckPoint, Wrap, GapList;
  }

  // ---- runs ----

  lemma RunSnoc(cfg: A.Config, states: seq<Q.Sys>, steps: seq<A.Step>, step: A.Step)
    requires cfg.Valid() && Q.IsRun(cfg, states, steps)
    requires A.Enabled(Q.Plain(cfg), states[|steps|].core, step)
    ensures Q.IsRun(cfg, states + [Q.Do(cfg, states[|steps|], step)], steps + [step])
  {
    hide Q.Do, A.Enabled;
  }

  /** Speaking extends the run and changes nothing but the channel. */
  lemma {:induction false} Speak(cfg: A.Config, states: seq<Q.Sys>, steps: seq<A.Step>, outs: seq<Output>)
    returns (more: seq<Q.Sys>)
    requires cfg.Valid() && Q.IsRun(cfg, states, steps)
    ensures Q.IsRun(cfg, more, steps + Replies(outs)) && |more| > 0
    ensures var t, s := more[|more| - 1], states[|steps|]; t == s.(core := s.core.(net := t.core.net))
  {
    hide Q.IsRun, Wrap, R.AckPoint, A.Pumping, Receive, HandleAck, FramesOf, A.Resent;
    Lengths(cfg, states, steps);
    if outs == [] {
      more := states;
      assert steps + [] == steps;
    } else {
      var n := |outs| - 1;
      more := Speak(cfg, states, steps, outs[..n]);
      var init := Replies(outs[..n]);
      Lengths(cfg, more, steps + init);
      if outs[n].SendAck? || outs[n].SendNak? {
        var step := if outs[n].SendAck? then A.PutAck(outs[n].lite, outs[n].available) else A.PutNak(outs[n].losses);
        RunSnoc(cfg, more, steps + init, step);
        more := more + [Q.Do(cfg, more[|steps + init|], step)];
        assert steps + init + [step] == steps + (init + [step]);
      }
    }
  }

  lemma RunStart(cfg: A.Config)
    requires cfg.Valid()
    ensures Q.IsRun(cfg, [Q.Init(cfg)], [])
  {
  }

  /** One step of the receiver and what it says. */
  lemma RunTake(cfg: A.Config, states: seq<Q.Sys>, steps: seq<A.Step>, step: A.Step, outs: seq<Output>)
    returns (more: seq<Q.Sys>)
    requires cfg.Valid() && Q.IsRun(cfg, states, steps) && |states| == |steps| + 1
    requires A.Enabled(Q.Plain(cfg), states[|steps|].core, step)
    ensures Q.IsRun(cfg, more, steps + [step] + Replies(outs)) && |more| == |steps| + 1 + |Replies(outs)| + 1
    ensures var t, s := more[|more| - 1], Q.Do(cfg, states[|steps|], step); t == s.(core := s.core.(net := t.core.net))
  {
    hide Q.IsRun, Q.Do, A.Enabled, Replies;
    RunSnoc(cfg, states, steps, step);
    more := Speak(cfg, states + [Q.Do(cfg, states[|steps|], step)], steps + [step], outs);
    Lengths(cfg, more, steps + [step] + Replies(outs));
  }

  lemma Lengths(cfg: A.Config, states: seq<Q.Sys>, steps: seq<A.Step>)
    requires cfg.Valid() && Q.IsRun(cfg, states, steps)
    ensures |states| == |steps| + 1
  {
    hide Q.Do, A.Enabled;
  }

  class MessageLink {
    const a: Conn
    const b: Conn
    ghost const cfg: A.Config
    ghost var states: seq<Q.Sys>
    ghost var steps: seq<A.Step>

    ghost function Now(): Q.Sys
      requires |states| > 0
      reads this
    {
      states[|states| - 1]
    }

    ghost predicate Coupled()
      requires |states| > 0
      reads this, a, a.sendBuf, b, b.recvBuf
    {
      && a.SenderView() == Now().core.sender && b.recvBuf.Box() == Q.Box(cfg, Now()) && b.events == Now().core.events
      && cfg.flowWindow == a.flowWindow && cfg.payloadSize == a.payloadSize && b.messageMode
    }

    /** What was done to the two objects is a run, and they are in its last state. */
    ghost predicate Valid()
      reads this, a, a.sendBuf, a.sendBuf.entries, a.recvBuf, a.recvBuf.entries,
            b, b.sendBuf, b.sendBuf.entries, b.recvBuf, b.recvBuf.entries
    {
      && L.Apart(a, b) && a.Valid() && b.Valid() && cfg.Valid()
      && |states| == |steps| + 1 && Q.IsRun(cfg, states, steps) && Coupled()
    }

    constructor (payloadSize: int, bufferCapacity: int, flowWindow: int, isn: Num)
      requires 0 < flowWindow && RingCapacity(bufferCapacity, flowWindow) <= Pow2(29)
      requires flowWindow + NextPow2(RingCapacity(bufferCapacity, flowWindow)) < HALF
      ensures Valid() && steps == [] && fresh(a) && fresh(b)
    {
      hide Wrap, Pow2, NextPow2, RingCapacity, Q.IsRun, Conn.Valid;
      L.IsWrapped(isn);
      L.IsWrapped(0);
      var sending := new Conn(payloadSize, bufferCapacity, flowWindow, true, isn, 0, isn, 0);
      var receiving := new Conn(payloadSize, bufferCapacity, flowWindow, true, 0, isn, 0, isn);
      L.CanReceive(receiving);
      a, b := sending, receiving;
      cfg := A.Config(isn, payloadSize, flowWindow, receiving.recvBuf.entries.Length, true);
      states := [Q.Init(A.Config(isn, payloadSize, flowWindow, receiving.recvBuf.entries.Length, true))];
      steps := [];
      new;
      RunStart(cfg);
    }

    // ---- the sending side ----

    /** A write of an ordered or an unordered message. */
    method Write(now: int, wireTS: nat, payload: Bytes, order: bool, srcTime: nat, forced: Option<nat>,
                 ctl: nat -> Control)
      requires Valid()
      modifies this, a, a.sendBuf, a.sendBuf.entries
      ensures Valid()
      ensures steps == old(steps) + [A.DoWrite(DataPath.Write(payload, a.msgNumber, order, srcTime), now, wireTS, ctl)]
      ensures Emitted(old(Now()).core.log, Now().core.log, old(a.outputs), a.outputs)
    {
      hide Wrap, Pump, FramesOf, Q.IsRun;
      a.WriteMsg(now, wireTS, payload, order, srcTime, forced, ctl);
      ghost var step := A.DoWrite(DataPath.Write(payload, a.msgNumber, order, srcTime), now, wireTS, ctl);
      RunSnoc(cfg, states, steps, step);
      states, steps := states + [Q.Do(cfg, Now(), step)], steps + [step];
    }

    method PacingTimer(now: int, wireTS: nat, ctl: nat -> Control)
      requires Valid()
      modifies this, a, a.sendBuf, a.sendBuf.entries
      ensures Valid() && steps == old(steps) + [A.DoPump(now, wireTS, ctl)]
      ensures Emitted(old(Now()).core.log, Now().core.log, old(a.outputs), a.outputs)
    {
      hide Wrap, Pump, Q.IsRun;
      a.PumpSend(now, wireTS, ctl);
      ghost var step := A.DoPump(now, wireTS, ctl);
      RunSnoc(cfg, states, steps, step);
      states, steps := states + [Q.Do(cfg, Now(), step)], steps + [step];
    }

    method TakeAck(m: A.Msg, now: int, wireTS: nat, ctl: nat -> Control)
      requires Valid() && m.Ack? && m in Now().core.net && A.Fresh(m.tag, Now().core.sender.snd.base)
      modifies this, a, a.sendBuf, a.sendBuf.entries
      ensures Valid() && steps == old(steps) + [A.GetAck(m, now, wireTS, ctl)]
      ensures Emitted(old(Now()).core.log, Now().core.log, old(a.outputs), a.outputs)
    {
      hide Wrap, Pump, HandleAck, Q.IsRun;
      a.HandleACK(now, wireTS, m.ackSeq, m.lite, m.available, ctl);
      ghost var step := A.GetAck(m, now, wireTS, ctl);
      RunSnoc(cfg, states, steps, step);
      states, steps := states + [Q.Do(cfg, Now(), step)], steps + [step];
    }

    method TakeNak(m: A.Msg, now: int, rtt: int, rttVar: int)
      requires Valid() && m.NakReport? && m in Now().core.net
      modifies this, a, a.sendBuf, a.sendBuf.entries
      ensures Valid()
      ensures steps == old(steps)
                       + [if rtt > 0 then A.GetNak(m, now, now - W.Max(rtt - 4 * rttVar, 0)) else A.GetFirstNak(m)]
      ensures var v := old(a.sendBuf.view);
              v.AllUsed() && a.outputs == old(a.outputs)
                + Packeted(if rtt > 0 then W.NakTimed(v, m.losses, now, now - W.Max(rtt - 4 * rttVar, 0)).out
                           else W.Nak(v, m.losses))
    {
      hide Wrap, W.NakTimed, W.Nak, A.Resent, Q.IsRun;
      a.HandleNAK(now, m.losses, rtt, rttVar);
      ghost var step := if rtt > 0 then A.GetNak(m, now, now - W.Max(rtt - 4 * rttVar, 0)) else A.GetFirstNak(m);
      RunSnoc(cfg, states, steps, step);
      states, steps := states + [Q.Do(cfg, Now(), step)], steps + [step];
    }

    method Timeout()
      requires Valid()
      modifies this, a
      ensures Valid() && steps == old(steps) + [A.DoRetransmitAll] && old(a.sendBuf.view).AllUsed()
      ensures a.outputs == old(a.outputs) + Packeted(W.Unacked(old(a.sendBuf.view)))
    {
      hide Wrap, A.Resent, W.Unacked, Q.IsRun;
      a.RetransmitAll();
      RunSnoc(cfg, states, steps, A.DoRetransmitAll);
      states, steps := states + [Q.Do(cfg, Now(), A.DoRetransmitAll)], steps + [A.DoRetransmitAll];
    }

    // ---- the receiving side ----

    /** A data packet with either order bit; what the receiver says in reply enters the channel. */
    method TakeData(m: A.Msg, now: int)
      requires Valid() && m.Data? && m in Now().core.net && A.Fresh(m.tag, Now().core.view.base)
      modifies this, b, b.recvBuf, b.recvBuf.entries
      ensures Valid() && old(b.outputs) <= b.outputs
      ensures steps == old(steps) + [A.GetData(m, now)] + Replies(b.outputs[|old(b.outputs)|..])
      ensures L.Truthful(b.outputs[|old(b.outputs)|..], Now().core.view)
    {
      hide Wrap, R.AckPoint, M.ReceiveBox, NakFor, LiteAckFor, L.Truthful, Q.IsRun, Replies, A.Do;
      ghost var box, outs := b.recvBuf.Box(), b.outputs;
      ghost var r := M.ReceiveBox(box, m.p, now, true);
      TakenKeepsAck(box, m.p, now);
      TruthfulReply(r, b.rcvPktCount + 1, b.lightACKCount);
      ghost var said := NakFor(r.result) + LiteAckFor(r.result, r.stored, b.rcvPktCount + 1, b.lightACKCount);
      b.HandleData(now, m.p);
      assert b.outputs[|outs|..] == said;
      ghost var more := RunTake(cfg, states, steps, A.GetData(m, now), said);
      states, steps := more, steps + [A.GetData(m, now)] + Replies(said);
    }

    method FullAck(now: int)
      requires Valid()
      modifies this, b
      ensures Valid() && old(b.outputs) <= b.outputs
      ensures steps == old(steps) + Replies(b.outputs[|old(b.outputs)|..])
      ensures L.Truthful(b.outputs[|old(b.outputs)|..], Now().core.view)
    {
      hide Wrap, R.AckPoint, R.Advertised, Q.IsRun, Replies;
      b.SendFullACK(now);
      ghost var said := b.outputs[|old(b.outputs)|..];
      ghost var more := Speak(cfg, states, steps, said);
      Lengths(cfg, more, steps + Replies(said));
      states, steps := more, steps + Replies(said);
    }

    method PeriodicNak()
      requires Valid()
      modifies this, b
      ensures Valid() && old(b.outputs) <= b.outputs
      ensures steps == old(steps) + Replies(b.outputs[|old(b.outputs)|..])
    {
      hide Wrap, R.AckPoint, R.Losses, Q.IsRun, Replies;
      b.SendPeriodicNAK();
      ghost var said := b.outputs[|old(b.outputs)|..];
      ghost var more := Speak(cfg, states, steps, said);
      Lengths(cfg, more, steps + Replies(said));
      states, steps := more, steps + Replies(said);
    }

    // ---- what is delivered ----

    /** d numbers the write each event of b carries, whole; no write twice. */
    ghost predicate DeliveredWhole(d: seq<nat>)
      requires |states| > 0
      reads this, b
    {
      var writes := Now().core.writes;
      && |d| == |b.events| && (forall i, j :: 0 <= i < j < |d| ==> d[i] != d[j])
      && forall i :: 0 <= i < |d| ==> d[i] < |writes| && b.events[i].data == writes[d[i]].payload
    }

    /** Every message the receiving object delivered is one written message, whole, and none came twice. */
    lemma Delivers()
      requires Valid()
      requires || (forall i :: 0 <= i < |steps| ==> Q.StepServes(cfg, states[i], steps[i]))
               || (forall i :: 0 <= i < |steps| ==> Q.Short(cfg, steps[i]))
      ensures exists d: seq<nat> :: DeliveredWhole(d)
    {
      hide Q.IsRun, Q.StepServes, Q.Short;
      if forall i :: 0 <= i < |steps| ==> Q.StepServes(cfg, states[i], steps[i]) {
        Q.MessagesWhole(cfg, states, steps, |steps|);
      } else {
        Q.ShortMessagesWhole(cfg, states, steps, |steps|);
      }
      var d: seq<nat> :| Q.Whole(Now().core, d);
      assert DeliveredWhole(d);
    }
  }
}
