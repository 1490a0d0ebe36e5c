/**
 * What can still happen in a run of Arq: losses can be repaired and everything written can be delivered,
 * from every reachable state, exactly when the receive ring has room for each message.
 */
module ArqProgress {
  import opened SeqNum
  import opened Packets
  import opened SendWindow
  import opened DataPath
  import opened Arq
  import R = RecvWindow

  // ---- every kind of repair reaches the channel ----

  /** The copy of entry i that a retransmission sends. */
  function Copy(v: SendView, i: nat): Msg
    requires i < |v.win| && v.win[i].Used()
  {
    Data(v.base + i, RexmitOf(v.win[i]))
  }

  lemma {:induction false} NakComplete(v: SendView, losses: seq<Num>, i: nat)
    requires v.AllUsed() && |v.win| < HALF && i < |v.win| && Wrap(v.base + i) in losses
    ensures RexmitOf(v.win[i]) in Nak(v, losses)
  {
    hide Wrap, Find;
    var init, last := losses[..|losses| - 1], losses[|losses| - 1];
    if last == Wrap(v.base + i) {
      FindExact(v, last, i);
    } else {
      assert losses == init + [last];
      NakComplete(v, init, i);
    }
  }

  lemma {:induction false} NakTimedComplete(v: SendView, losses: seq<Num>, now: int, timeNak: int, i: nat)
    requires Stamped(v) && |v.win| < HALF && timeNak <= now && i < |v.win| && Asked(v, i, losses)
    requires !TooRecent(v.win[i], timeNak)
    ensures RexmitOf(v.win[i]) in NakTimed(v, losses, now, timeNak).out
  {
    hide Wrap, Find;
    var init, last := losses[..|losses| - 1], losses[|losses| - 1];
    var t := NakTimed(v, init, now, timeNak);
    assert losses == init + [last];
    if Asked(v, i, init) {
      NakTimedComplete(v, init, now, timeNak, i);
    } else {
      NakTimedAnswers(v, init, now, timeNak);
      SameFind(v, t.win, last);
      FindExact(v, last, i);
      assert TimedEntry(v, init, t, now, timeNak, i);
    }
  }

  lemma SendFacts(cfg: Config, s: Sys)
    requires cfg.Valid() && Inv(cfg, s)
    ensures Stamped(s.sender.snd) && s.sender.snd.AllUsed() && |s.sender.snd.win| < HALF
    ensures forall i :: 0 <= i < |s.sender.snd.win| ==> !s.sender.snd.win[i].pkt.value.retransmitted
  {
    hide Flatten, EventInv, RecvInv, NetInv, MessageFrames;
    var v := s.sender.snd;
    forall i | 0 <= i < |v.win|
      ensures v.win[i].Used() && v.win[i].pkt.value.seqNo == Wrap(v.base + i) && !v.win[i].pkt.value.retransmitted
    {
      var k := v.base - cfg.isn + i;
      assert v.win[i].pkt == Some(s.log[k]) && Matches(s.log[k], Flatten(s.groups)[k], cfg.isn + k);
    }
  }

  lemma CopyResent(v: SendView, ps: seq<Packet>, i: nat)
    requires i < |v.win| && v.win[i].Used() && !v.win[i].pkt.value.retransmitted && RexmitOf(v.win[i]) in ps
    ensures Copy(v, i) in Resent(ps, v)
  {
    var p := RexmitOf(v.win[i]);
    assert v.win[i].pkt == Some(p.(retransmitted := false));
  }

  /**
   * A timeout resends every packet in flight, a loss report every one it names, and a gated one every one
   * it names outside the gate.
   */
  lemma RepairsAreSent(cfg: Config, s: Sys, i: nat, m: Msg, now: int, timeNak: int)
    requires cfg.Valid() && Inv(cfg, s) && i < |s.sender.snd.win| && timeNak <= now && m.NakReport? && m in s.net
    ensures var v := s.sender.snd;
            && v.win[i].Used() && v.AllUsed()
            && Copy(v, i) in Do(cfg, s, DoRetransmitAll).net
            && (Wrap(v.base + i) in m.losses ==> Copy(v, i) in Do(cfg, s, GetFirstNak(m)).net)
            && (Wrap(v.base + i) in m.losses && !TooRecent(v.win[i], timeNak) ==>
                  Copy(v, i) in Do(cfg, s, GetNak(m, now, timeNak)).net)
  {
    hide Inv, Wrap, Resent, Nak, NakTimed;
    SendFacts(cfg, s);
    var v := s.sender.snd;
    var all := Unacked(v);
    assert all[i] == RexmitOf(v.win[i]);
    CopyResent(v, all, i);
    if Wrap(v.base + i) in m.losses {
      NakComplete(v, m.losses, i);
      CopyResent(v, Nak(v, m.losses), i);
      if !TooRecent(v.win[i], timeNak) {
        NakTimedComplete(v, m.losses, now, timeNak, i);
        CopyResent(v, NakTimed(v, m.losses, now, timeNak).out, i);
      }
    }
  }

  // ---- one round ----

  ghost predicate IsRunFrom(cfg: Config, s: Sys, states: seq<Sys>, steps: seq<Step>) {
    && |states| == |steps| + 1 && states[0] == s
    && forall i :: 0 <= i < |steps| ==>
         Enabled(cfg, states[i], steps[i]) && states[i + 1] == Do(cfg, states[i], steps[i])
  }

  /** What is kept along a continuation. */
  ghost predicate Good(cfg: Config, s: Sys) {
    cfg.Valid() && Inv(cfg, s) && Drained(cfg, s.view)
  }

  lemma Extend(cfg: Config, s: Sys, states: seq<Sys>, steps: seq<Step>, step: Step) returns (t: Sys)
    requires IsRunFrom(cfg, s, states, steps) && Good(cfg, states[|steps|]) && Enabled(cfg, states[|steps|], step)
    ensures t == Do(cfg, states[|steps|], step) && Good(cfg, t) && IsRunFrom(cfg, s, states + [t], steps + [step])
  {
    hide Inv, Drained, Do, Enabled;
    t := Do(cfg, states[|steps|], step);
    StepKeeps(cfg, states[|steps|], step);
    StepDrains(cfg, states[|steps|], step);
  }

  /** The congestion controller out of the way. */
  function Free(cfg: Config): nat -> Control {
    n => Control(cfg.flowWindow, 0)
  }

  /** With the flow window open and the deadline reached, pump stops only with packets in flight or nothing queued. */
  lemma {:induction false} PumpsSomething(cfg: Config, q: Sender)
    requires cfg.Valid() && q.rcvFlowWin == cfg.flowWindow
    ensures var r := Pump(q, q.nextSendTime, 0, cfg.flowWindow, Free(cfg), 0);
            && r.sender.snd.base == q.snd.base && r.sender.snd.Next() >= q.snd.Next()
            && (r.sender.snd.win != [] || (r.sender.queue == [] == q.queue && r.sender.snd.Next() == q.snd.Next()))
  {
    hide Pump, Wrap, SentAt;
    PumpExact(q, q.nextSendTime, 0, cfg.flowWindow, Free(cfg), 0);
    PumpTurn(q, q.nextSendTime, 0, cfg.flowWindow, Free(cfg), 0);
    WindowExact(cfg.flowWindow, q.rcvFlowWin, cfg.flowWindow, |q.snd.win|);
  }

  predicate Complete(s: Sys) {
    s.sender.queue == [] && R.AckPoint(s.view) == s.sender.snd.Next()
  }

  /** The acknowledgement of all the receiver has, with the whole flow window advertised. */
  function FullReply(cfg: Config, s: Sys): Msg {
    Ack(R.AckPoint(s.view), Wrap(R.AckPoint(s.view)), false, cfg.flowWindow)
  }

  lemma PointFacts(cfg: Config, s: Sys)
    requires Good(cfg, s)
    ensures cfg.Valid() && |s.sender.snd.win| <= cfg.flowWindow
    ensures s.sender.snd.base <= R.AckPoint(s.view) <= s.sender.snd.Next()
    ensures s.sender.snd.Next() == cfg.isn + |s.log| && |s.log| <= |Flatten(s.groups)| && cfg.isn <= s.view.base
  {
    hide Flatten, EventInv, NetInv, Matches, MessageFrames, Drained;
  }

  lemma AckOpens(cfg: Config, s: Sys)
    requires Good(cfg, s) && FullReply(cfg, s) in s.net && !Complete(s)
    ensures var step := GetAck(FullReply(cfg, s), s.sender.nextSendTime, 0, Free(cfg));
            && Enabled(cfg, s, step)
            && var t := Do(cfg, s, step);
            t.sender.snd.win != [] && t.sender.snd.base == R.AckPoint(s.view)
            && t.view == s.view && t.writes == s.writes && t.groups == s.groups
  {
    hide Wrap, R.AckPoint, Good, Pump;
    PointFacts(cfg, s);
    var m := FullReply(cfg, s);
    AckReleasesBelow(s.sender.snd, m.tag);
    var q := HandleAck(s.sender, m.ackSeq, m.lite, m.available);
    hide Released, HandleAck;
    AckParts(s.sender, m.ackSeq, m.available);
    PumpsSomething(cfg, q);
  }

  lemma AckParts(s: Sender, ack: Num, available: nat)
    ensures var q := HandleAck(s, ack, false, available);
            && q.snd == DropHead(s.snd, Released(s.snd, ack)) && q.rcvFlowWin == available
            && q.queue == s.queue && q.nextSendTime == s.nextSendTime
  {
  }

  /** Every message has room in the receive ring, which keeps one slot free. */
  ghost predicate Fitting(cfg: Config, groups: seq<seq<Frame>>) {
    cfg.recvCap >= 2 && (cfg.messageMode ==> forall k :: 0 <= k < |groups| ==> |groups[k]| < cfg.recvCap)
  }

  /** The first packet the receiver lacks lies inside its ring. */
  lemma RoomAtGap(cfg: Config, s: Sys)
    requires Good(cfg, s) && Fitting(cfg, s.groups) && R.AckPoint(s.view) < s.sender.snd.Next()
    ensures R.AckOffset(s.view.win) < cfg.recvCap - 1
  {
    hide Flatten, EventData, Payloads, Matches, MessageFrames, SendInv, NetInv;
    PointFacts(cfg, s);
    if cfg.messageMode {
      var k := |s.events|;
      NextMessageExists(s.groups, k);
      DrainedMessages(cfg, s);
      var j: nat :| LacksFrame(cfg, s, k, j);
      assert R.Slot(s.view, j).state.Empty?;
    } else {
      R.AckOffsetUnique(s.view.win, 0);
    }
  }

  /** The packet at the acknowledgement point, once it arrives, moves that point on. */
  lemma GapFills(cfg: Config, s: Sys)
    requires Good(cfg, s) && Fitting(cfg, s.groups) && s.sender.snd.win != [] && s.sender.snd.base == R.AckPoint(s.view)
    requires s.sender.snd.win[0].Used() && Copy(s.sender.snd, 0) in s.net
    ensures var step := GetData(Copy(s.sender.snd, 0), 0);
            && Enabled(cfg, s, step)
            && var t := Do(cfg, s, step);
            R.AckPoint(t.view) > R.AckPoint(s.view) && t.writes == s.writes && t.groups == s.groups
  {
    hide Wrap, Inv, Drained, Deliver, R.InsertAt, Distance;
    var p := RexmitOf(s.sender.snd.win[0]);
    SendFacts(cfg, s);
    GapPlace(cfg, s, p.seqNo);
    var i := R.AckOffset(s.view.win);
    R.InsertKeepsAck(s.view, i, p, 0);
    DeliverKeepsPoint(R.InsertAt(s.view, i, p, 0), cfg.messageMode);
  }

  lemma GapPlace(cfg: Config, s: Sys, seqNo: Num)
    requires Good(cfg, s) && Fitting(cfg, s.groups) && R.AckPoint(s.view) < s.sender.snd.Next()
    requires seqNo == Wrap(R.AckPoint(s.view))
    ensures R.Placed(s.view, seqNo, cfg.recvCap) == Some(R.AckOffset(s.view.win))
  {
    RoomAtGap(cfg, s);
    hide Good, Wrap, Distance;
    R.PlacedByWireNumber(s.view, R.AckPoint(s.view), cfg.recvCap, R.AckOffset(s.view.win));
  }

  lemma DeliverKeepsPoint(v: R.RecvView, messageMode: bool)
    ensures R.AckPoint(Deliver(v, messageMode).view) == R.AckPoint(v)
  {
    hide R.AckPoint, DeliverStream, DeliverMessages;
    StreamKeepsAck(v);
    MessagesKeepAck(v);
  }

  /** Acknowledge, resend, deliver: four steps that move the acknowledgement point on. */
  lemma Round(cfg: Config, s: Sys) returns (states: seq<Sys>, steps: seq<Step>)
    requires Good(cfg, s) && Fitting(cfg, s.groups) && !Complete(s)
    ensures IsRunFrom(cfg, s, states, steps) && Good(cfg, states[|steps|])
    ensures var t := states[|steps|];
            R.AckPoint(t.view) > R.AckPoint(s.view) && t.writes == s.writes && t.groups == s.groups
  {
    hide Good, Fitting, Complete, R.AckPoint, Wrap, IsRunFrom, Pumping, Resent, Receive;
    OneState(cfg, s);
    states, steps := [s], [];
    var step := PutAck(false, cfg.flowWindow);
    var t := Extend(cfg, s, states, steps, step);
    states, steps := states + [t], steps + [step];
    assert FullReply(cfg, t) in t.net;
    StillOpen(cfg, s, t);
    AckOpens(cfg, t);
    step := GetAck(FullReply(cfg, t), t.sender.nextSendTime, 0, Free(cfg));
    t := Extend(cfg, s, states, steps, step);
    states, steps := states + [t], steps + [step];
    GoodSend(cfg, t);
    t := Extend(cfg, s, states, steps, DoRetransmitAll);
    CopyIsOut(cfg, states[|steps|]);
    states, steps := states + [t], steps + [DoRetransmitAll];
    GapFills(cfg, t);
    step := GetData(Copy(t.sender.snd, 0), 0);
    t := Extend(cfg, s, states, steps, step);
    states, steps := states + [t], steps + [step];
  }

  lemma OneState(cfg: Config, s: Sys)
    ensures IsRunFrom(cfg, s, [s], [])
  {
  }

  lemma StillOpen(cfg: Config, s: Sys, t: Sys)
    requires t == s.(net := t.net) && !Complete(s)
    ensures !Complete(t)
  {
  }

  lemma GoodSend(cfg: Config, s: Sys)
    requires Good(cfg, s)
    ensures s.sender.snd.AllUsed()
  {
    hide Inv, Drained;
    SendFacts(cfg, s);
  }

  lemma CopyIsOut(cfg: Config, s: Sys)
    requires Good(cfg, s) && s.sender.snd.win != []
    ensures s.sender.snd.AllUsed() && Copy(s.sender.snd, 0) in Do(cfg, s, DoRetransmitAll).net
  {
    hide Inv, Drained, Wrap, Resent;
    SendFacts(cfg, s);
    var v := s.sender.snd;
    assert Unacked(v)[0] == RexmitOf(v.win[0]);
    CopyResent(v, Unacked(v), 0);
  }

  // ---- completion ----

  lemma PointBound(cfg: Config, s: Sys)
    requires Good(cfg, s)
    ensures 0 <= R.AckPoint(s.view) - cfg.isn <= |Flatten(s.groups)|
  {
    hide Flatten, Good;
    PointFacts(cfg, s);
  }

  lemma RunLength(cfg: Config, s: Sys, states: seq<Sys>, steps: seq<Step>)
    requires IsRunFrom(cfg, s, states, steps)
    ensures |states| == |steps| + 1
  {
    hide Enabled, Do;
  }

  lemma {:induction false} Finish(cfg: Config, s: Sys) returns (states: seq<Sys>, steps: seq<Step>)
    requires Good(cfg, s) && Fitting(cfg, s.groups)
    ensures IsRunFrom(cfg, s, states, steps) && Good(cfg, states[|steps|]) && Complete(states[|steps|])
    ensures states[|steps|].writes == s.writes && states[|steps|].groups == s.groups
    decreases |Flatten(s.groups)| - (R.AckPoint(s.view) - cfg.isn)
  {
    hide Good, Fitting, Complete, R.AckPoint, Flatten, IsRunFrom;
    OneState(cfg, s);
    states, steps := [s], [];
    if !Complete(s) {
      states, steps := Round(cfg, s);
      RunLength(cfg, s, states, steps);
      var t := states[|steps|];
      PointBound(cfg, s);
      PointBound(cfg, t);
      var rest, moves := Finish(cfg, t);
      RunLength(cfg, t, rest, moves);
      Chain(cfg, s, states, steps, rest, moves);
      states, steps := states + rest[1..], steps + moves;
    }
  }

  lemma Chain(cfg: Config, s: Sys, states: seq<Sys>, steps: seq<Step>, rest: seq<Sys>, moves: seq<Step>)
    requires IsRunFrom(cfg, s, states, steps) && IsRunFrom(cfg, states[|steps|], rest, moves)
    ensures IsRunFrom(cfg, s, states + rest[1..], steps + moves)
    ensures (states + rest[1..])[|steps + moves|] == rest[|moves|]
  {
    hide Enabled, Do;
    var all, n := states + rest[1..], |steps|;
    forall i | 0 <= i < |steps + moves|
      ensures Enabled(cfg, all[i], (steps + moves)[i]) && all[i + 1] == Do(cfg, all[i], (steps + moves)[i])
    {
      if i >= n {
        assert all[i] == rest[i - n] && all[i + 1] == rest[i - n + 1] && (steps + moves)[i] == moves[i - n];
      }
    }
  }

  /**
   * Nothing deadlocks: from every state of every run, whatever was lost, duplicated or reordered before,
   * the channel and the timers can act so that everything written is delivered.
   */
  lemma CanDeliverAll(cfg: Config, states: seq<Sys>, steps: seq<Step>, n: nat)
    returns (more: seq<Sys>, moves: seq<Step>)
    requires cfg.Valid() && IsRun(cfg, states, steps) && n < |states| && Fitting(cfg, states[n].groups)
    ensures IsRunFrom(cfg, states[n], more, moves)
    ensures var t := more[|moves|];
            && t.writes == states[n].writes
            && (!cfg.messageMode ==> EventData(t.events) == Written(t.writes))
            && (cfg.messageMode ==> |t.events| == |t.writes|)
  {
    hide IsRun, Inv, Drained, IsRunFrom, Fitting;
    RunInv(cfg, states, steps, n);
    RunDrained(cfg, states, steps, n);
    more, moves := Finish(cfg, states[n]);
    RunLength(cfg, states[n], more, moves);
    CompleteDelivers(cfg, more[|moves|]);
  }

  // ---- messages the ring cannot hold ----

  /** Delivered messages had room in the ring. */
  ghost predicate Roomy(cfg: Config, s: Sys) {
    |s.events| <= |s.groups| && forall k :: 0 <= k < |s.events| ==> |s.groups[k]| < cfg.recvCap
  }

  lemma {:induction false} MessagesRoomy(cfg: Config, s: Sys)
    requires Inv(cfg, s) && cfg.messageMode && Roomy(cfg, s)
    ensures Roomy(cfg, s.(events := s.events + DeliverMessages(s.view).events))
    decreases |s.view.win|
  {
    hide Wrap, R.AckPoint, Flatten, EventData, Payloads, R.ReadInOrder, Matches;
    if R.ReadyHead(s.view) {
      MessageRead(cfg, s);
      ReadShrinks(s.view);
      var r := R.ReadInOrder(s.view);
      if r.pkts.Some? {
        var e := EventOf(r.pkts.value);
        MessageEvent(cfg, s, r.pkts.value);
        ReadKeeps(cfg, s, |s.groups[|s.events|]|, s.events + [e]);
        var t := s.(view := r.view, events := s.events + [e]);
        MessagesRoomy(cfg, t);
        var rest := DeliverMessages(r.view).events;
        assert s.events + ([e] + rest) == t.events + rest;
      }
    }
  }

  lemma StepRoomy(cfg: Config, s: Sys, step: Step)
    requires cfg.Valid() && Inv(cfg, s) && cfg.messageMode && Roomy(cfg, s) && Enabled(cfg, s, step)
    ensures Roomy(cfg, Do(cfg, s, step))
  {
    hide Inv, Wrap, Pump, HandleAck, FramesOf, NakTimed, Nak, Resent, Unacked, R.AckPoint, Tagged, DeliverMessages,
         R.Placed, R.InsertAt;
    if step.GetData? {
      PlacedExact(cfg, s, step.m, step.now);
      var at := R.Placed(s.view, step.m.p.seqNo, cfg.recvCap);
      if at.Some? {
        PlacedFits(s.view, step.m.p.seqNo, cfg.recvCap);
        StoreKeeps(cfg, s, step.m, at.value, step.now);
        MessagesRoomy(cfg, s.(view := R.InsertAt(s.view, at.value, step.m.p, step.now)));
      }
    }
  }

  lemma PlacedFits(v: R.RecvView, seqNo: Num, cap: nat)
    ensures R.Placed(v, seqNo, cap).Some? ==> R.Placed(v, seqNo, cap).value < cap - 1
  {
    hide Wrap, Distance;
  }

  lemma {:induction false} RunRoomy(cfg: Config, states: seq<Sys>, steps: seq<Step>, n: nat)
    requires cfg.Valid() && cfg.messageMode && IsRun(cfg, states, steps) && n < |states|
    ensures Roomy(cfg, states[n])
  {
    hide Inv, Do, Enabled;
    if n > 0 {
      RunInv(cfg, states, steps, n - 1);
      RunRoomy(cfg, states, steps, n - 1);
      StepRoomy(cfg, states[n - 1], steps[n - 1]);
    }
  }

  /**
   * The exact condition in message mode: a message of as many packets as the ring has slots, or more, is
   * never delivered, in no run, and holds back everything after it.
   */
  lemma TooLongIsNeverDelivered(cfg: Config, states: seq<Sys>, steps: seq<Step>, n: nat, k: nat)
    requires cfg.Valid() && cfg.messageMode && IsRun(cfg, states, steps) && n < |states|
    requires k < |states[n].groups| && |states[n].groups[k]| >= cfg.recvCap
    ensures |states[n].events| <= k
  {
    hide IsRun;
    RunRoomy(cfg, states, steps, n);
  }
}
