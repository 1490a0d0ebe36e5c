/**
 * The rendezvous handshake (internal/core/rendezvous.go; section 4.3.2 of draft-sharabayko-srt).
 * RdvLogic holds the decision functions and one peer on values; RdvDialer the object that computes
 * it; RdvRuns two peers over a channel that loses, duplicates and reorders.
 */
module RdvLogic {
  import opened Packets

  datatype State = Waving | Attention | Fine | Initiated | Connected
  datatype Side = Draw | Initiator | Responder
  datatype HsType = Wavehand | Induction | Conclusion | Agreement | Done | Rejection(code: nat)

  const REJ_ROGUE := 1004
  const REJ_RDV_COOKIE := 1005
  const REJ_BAD_SECRET := 1010
  const REJ_CONGESTION := 1013
  const EVEN: nat := 1

  datatype Transition = Transition(newState: State, rspType: HsType, needsExt: bool, needsHSRSP: bool)

  // ---- the cookie contest ----

  type Cookie = c: int | 0 <= c < 0x1_0000_0000

  function AsInt32(c: Cookie): int {
    if c < 0x8000_0000 then c else c - 0x1_0000_0000
  }

  /** Bit 31 of a 64-bit two's complement integer. */
  predicate Bit31(x: int) {
    x % 0x1_0000_0000 >= 0x8000_0000
  }

  function CookieContest(agentCookie: Cookie, peerCookie: Cookie): Side {
    var agent, peer := AsInt32(agentCookie), AsInt32(peerCookie);
    var contest := agent - peer;
    if contest % 0x1_0000_0000 == 0 then Draw
    else if Bit31(contest) then
      if Bit31(peer - agent) && agent > peer then Initiator else Responder
    else Initiator
  }

  lemma Low32(d: int)
    requires -0x1_0000_0000 < d < 0x1_0000_0000
    ensures d % 0x1_0000_0000 == (if d < 0 then d + 0x1_0000_0000 else d)
  {
  }

  /** Both peers reach opposite verdicts, and a draw exactly on equal cookies. */
  lemma ContestOpposite(a: Cookie, b: Cookie)
    ensures CookieContest(a, b) == Draw <==> a == b
    ensures CookieContest(a, b) == Initiator <==> CookieContest(b, a) == Responder
  {
    var d := AsInt32(a) - AsInt32(b);
    Low32(d);
    Low32(-d);
    assert AsInt32(b) - AsInt32(a) == -d;
  }

  /**
   * "The larger cookie is the initiator" holds exactly while the signed cookies differ by at most
   * 2^31; beyond that the smaller one wins.
   */
  lemma LargerCookieWins(a: Cookie, b: Cookie)
    requires a != b
    ensures (CookieContest(a, b) == Initiator <==> AsInt32(a) > AsInt32(b))
       <==> -0x8000_0000 <= AsInt32(a) - AsInt32(b) <= 0x8000_0000
  {
    var d := AsInt32(a) - AsInt32(b);
    Low32(d);
    Low32(-d);
    assert AsInt32(b) - AsInt32(a) == -d;
  }

  lemma SmallerCookieCanWin()
    ensures AsInt32(0x7FFF_FFFF) > AsInt32(0x8000_0000) && CookieContest(0x7FFF_FFFF, 0x8000_0000) == Responder
  {
  }

  // ---- the transition function ----

  function SwitchState(state: State, recv: HsType, side: Side, hasExt: bool): Transition {
    match state
    case Waving =>
      if recv.Wavehand? then Transition(Attention, Conclusion, side.Initiator?, false)
      else if recv.Conclusion? then Transition(Fine, Conclusion, true, side.Responder?)
      else Transition(Waving, Rejection(REJ_ROGUE), false, false)
    case Attention =>
      if recv.Wavehand? then Transition(Attention, Conclusion, side.Initiator?, false)
      else if recv.Conclusion? then
        match side
        case Initiator =>
          if !hasExt then Transition(Attention, Conclusion, true, false)
          else Transition(Connected, Agreement, false, false)
        case Responder =>
          if !hasExt then Transition(Attention, Conclusion, false, false)
          else Transition(Initiated, Conclusion, true, true)
        case Draw => Transition(Waving, Rejection(REJ_RDV_COOKIE), false, false)
      else if recv.Agreement? then
        if side.Initiator? then Transition(Connected, Done, false, false)
        else Transition(Attention, Conclusion, true, true)
      else Transition(Waving, Rejection(REJ_ROGUE), false, false)
    case Fine =>
      if recv.Conclusion? then
        if side.Initiator? && hasExt then Transition(Connected, Agreement, false, false)
        else Transition(Fine, Conclusion, true, side.Responder?)
      else if recv.Agreement? then Transition(Connected, Done, false, false)
      else Transition(Waving, Rejection(REJ_ROGUE), false, false)
    case Initiated =>
      if recv.Agreement? then Transition(Connected, Done, false, false)
      else if recv.Conclusion? then Transition(Initiated, Conclusion, true, true)
      else Transition(Waving, Rejection(REJ_ROGUE), false, false)
    case Connected => Transition(Connected, Done, false, false)
  }

  /** The sides that complete on a message of this kind: the initiator on extensions, either on AGREEMENT. */
  predicate Completes(state: State, recv: HsType, side: Side, hasExt: bool) {
    || state.Connected?
    || (recv.Conclusion? && hasExt && side.Initiator? && (state.Attention? || state.Fine?))
    || (recv.Agreement? && (state.Fine? || state.Initiated? || (state.Attention? && side.Initiator?)))
  }

  /** The kinds of message a state does not expect, and a contest nobody won. */
  predicate Refuses(state: State, recv: HsType, side: Side) {
    match state
    case Waving => !recv.Wavehand? && !recv.Conclusion?
    case Attention => (!recv.Wavehand? && !recv.Conclusion? && !recv.Agreement?) || (recv.Conclusion? && side.Draw?)
    case Fine => !recv.Conclusion? && !recv.Agreement?
    case Initiated => !recv.Conclusion? && !recv.Agreement?
    case Connected => false
  }

  /** When a CONCLUSION goes out with extensions: the initiator's always, the responder's as an answer. */
  predicate Extends(state: State, recv: HsType, side: Side, hasExt: bool) {
    match state
    case Waving => recv.Conclusion? || side.Initiator?
    case Attention =>
      if recv.Wavehand? then side.Initiator?
      else if recv.Agreement? then true
      else side.Initiator? || hasExt
    case _ => true
  }

  /**
   * The transition table by its columns: who connects, what is refused, what is answered, and that the
   * exchange never goes back.
   */
  lemma SwitchExact(state: State, recv: HsType, side: Side, hasExt: bool)
    ensures var t := SwitchState(state, recv, side, hasExt);
            && (t.newState.Connected? <==> Completes(state, recv, side, hasExt))
            && (t.rspType.Rejection? <==> Refuses(state, recv, side))
            && (t.rspType.Rejection? ==>
                  && t.newState.Waving?
                  && t.rspType.code == (if state.Attention? && recv.Conclusion? then REJ_RDV_COOKIE else REJ_ROGUE))
            && (t.rspType.Agreement? <==> t.newState.Connected? && recv.Conclusion? && !state.Connected?)
            && (t.rspType.Done? <==> t.newState.Connected? && !t.rspType.Agreement?)
            && (t.rspType.Conclusion? <==> !t.newState.Connected? && !t.rspType.Rejection?)
            && (t.rspType.Conclusion? ==>
                  && (t.needsExt <==> Extends(state, recv, side, hasExt))
                  && (t.needsHSRSP <==> t.needsExt && !AsksFirst(state, recv, side))
                  && t.newState == NextStep(state, recv, side, hasExt))
            && (!t.rspType.Conclusion? ==> !t.needsExt && !t.needsHSRSP)
  {
  }

  /** Extensions sent as a request: the initiator's, and those sent before the role is known. */
  predicate AsksFirst(state: State, recv: HsType, side: Side) {
    match state
    case Waving => !side.Responder?
    case Attention => side.Initiator? && !recv.Agreement?
    case Fine => !side.Responder?
    case _ => false
  }

  /** Where an exchange that goes on goes to. */
  function NextStep(state: State, recv: HsType, side: Side, hasExt: bool): State {
    match state
    case Waving => if recv.Wavehand? then Attention else Fine
    case Attention => if recv.Conclusion? && side.Responder? && hasExt then Initiated else Attention
    case _ => state
  }

  // ---- messages and one peer ----

  /** Key material, wrapped with a passphrase. */
  datatype KeyMaterial = KeyMaterial(pass: string, slot: nat, key: int)

  datatype Latency = Latency(recv: nat, send: nat)

  /** The extensions of a CONCLUSION. */
  datatype Extension = Extension(request: bool, lat: Latency, cong: string, km: Option<KeyMaterial>)

  datatype Hs = Hs(kind: HsType, socketID: nat, isn: nat, mss: nat, fc: nat, cookie: Cookie, ext: Option<Extension>)

  datatype PeerConfig = PeerConfig(
    socketID: nat, isn: nat, mss: nat, fc: nat, cookie: Cookie, lat: Latency, cong: string,
    pass: string, key: Option<int>)

  /** What establish is called with. */
  datatype Params = Params(peerID: nat, sendISN: nat, recvISN: nat, mss: nat, flowWindow: nat, lat: Latency,
                           key: Option<int>, activeKey: nat)

  datatype Status = Dialing | Established(params: Params) | Failed(code: nat)

  datatype Peer = Peer(
    cfg: PeerConfig,
    status: Status,
    rstate: State,
    side: Side,
    mss: nat,
    peerID: nat, peerISN: nat, peerFC: nat,
    neg: Option<Latency>,
    key: Option<int>,       // the key held by the crypto context
    kmKey: nat,             // negotiated key slot, 0 = none yet
    kmAdopted: bool,
    last: Option<Transition>)

  function Dial(cfg: PeerConfig): Peer {
    Peer(cfg, Dialing, Waving, Draw, cfg.mss, 0, 0, 0, None, cfg.key, 0, false, None)
  }

  function Min(a: nat, b: nat): nat { if a < b then a else b }
  function Max(a: nat, b: nat): nat { if a < b then b else a }

  /** Each receive direction combines its own minimum with the opposite endpoint's send offer. */
  function NegotiateLatency(local: Latency, peer: Latency): Latency {
    Latency(Max(local.recv, peer.send), Max(local.send, peer.recv))
  }

  function WavehandOf(p: Peer): Hs {
    Hs(Wavehand, p.cfg.socketID, p.cfg.isn, p.mss, p.cfg.fc, p.cfg.cookie, None)
  }

  /** The slot a response announces; an initiator without one settles on the even slot. */
  function KeySlot(p: Peer): nat {
    if p.kmKey == 0 then EVEN else p.kmKey
  }

  function Settle(p: Peer, t: Transition): Peer {
    if t.rspType.Conclusion? && t.needsExt && p.key.Some? && p.kmKey == 0 && p.side.Initiator?
    then p.(kmKey := EVEN) else p
  }

  function ResponseTo(p: Peer, t: Transition): seq<Hs> {
    match t.rspType
    case Conclusion =>
      var km := if t.needsExt && p.key.Some? then Some(KeyMaterial(p.cfg.pass, KeySlot(p), p.key.value)) else None;
      var ext := if t.needsExt then Some(Extension(!t.needsHSRSP, p.cfg.lat, p.cfg.cong, km)) else None;
      [Hs(Conclusion, p.cfg.socketID, p.cfg.isn, p.mss, p.cfg.fc, p.cfg.cookie, ext)]
    case Agreement => [Hs(Agreement, p.cfg.socketID, p.cfg.isn, p.mss, p.cfg.fc, 0, None)]
    case _ => []
  }

  datatype Handled = Handled(peer: Peer, out: seq<Hs>)

  function Fail(p: Peer, code: nat): Handled {
    Handled(p.(status := Failed(code)), [])
  }

  /** rendezvousRetransmit: the current step again, or the WAVEHAND before the first one. */
  function Retransmit(p: Peer): Handled {
    if p.last.Some? then Handled(Settle(p, p.last.value), ResponseTo(p, p.last.value))
    else Handled(p, [WavehandOf(p)])
  }

  function LearnPeer(p: Peer, hs: Hs): Peer {
    if p.peerID == 0 && hs.socketID != 0
    then p.(mss := Min(p.mss, hs.mss), peerID := hs.socketID, peerISN := hs.isn, peerFC := hs.fc) else p
  }

  function ResolveSide(p: Peer, hs: Hs): Peer {
    if p.side.Draw? && hs.cookie != 0 then p.(side := CookieContest(p.cfg.cookie, hs.cookie)) else p
  }

  predicate HasExt(hs: Hs) {
    hs.kind.Conclusion? && hs.ext.Some?
  }

  function Negotiate(p: Peer, hs: Hs): Peer {
    if HasExt(hs) && p.neg.None? then p.(neg := Some(NegotiateLatency(p.cfg.lat, hs.ext.value.lat))) else p
  }

  predicate Adopts(p: Peer, hs: Hs) {
    HasExt(hs) && hs.ext.value.km.Some? && p.key.Some? && p.side.Responder? && !p.kmAdopted
  }

  function Adopt(p: Peer, hs: Hs): Peer {
    if Adopts(p, hs) then p.(key := Some(hs.ext.value.km.value.key), kmKey := hs.ext.value.km.value.slot,
                             kmAdopted := true)
    else p
  }

  function Establish(p: Peer): Peer {
    var recv := if p.neg.None? || p.neg.value.recv == 0 then p.cfg.lat.recv else p.neg.value.recv;
    var send := if p.neg.None? || p.neg.value.send == 0 then p.cfg.lat.send else p.neg.value.send;
    var fc := if 0 < p.peerFC < p.cfg.fc then p.peerFC else p.cfg.fc;
    p.(status := Established(Params(p.peerID, p.cfg.isn, p.peerISN, p.mss, fc, Latency(recv, send), p.key, KeySlot(p))))
  }

  /** handleRendezvous, on a peer that is still dialing. */
  function Handle(p: Peer, hs: Hs): Handled {
    if !p.status.Dialing? then Handled(p, [])
    else if hs.kind.Wavehand? && (p.rstate.Fine? || p.rstate.Initiated?) then Retransmit(p)
    else if p.peerID == 0 && hs.socketID != 0 && hs.mss < 76 then Fail(p, REJ_ROGUE)
    else
      var p1 := ResolveSide(LearnPeer(p, hs), hs);
      if p.side.Draw? && hs.cookie != 0 && p1.side.Draw? then Fail(p1, REJ_RDV_COOKIE)
      else if HasExt(hs) && p1.cfg.cong != hs.ext.value.cong then Fail(p1, REJ_CONGESTION)
      else
        var p2 := Negotiate(p1, hs);
        if Adopts(p2, hs) && hs.ext.value.km.value.pass != p2.cfg.pass then Fail(p2, REJ_BAD_SECRET)
        else Advance(Adopt(p2, hs), hs)
  }

  function SideAfter(p: Peer, hs: Hs): Side {
    if p.side.Draw? && hs.cookie != 0 then CookieContest(p.cfg.cookie, hs.cookie) else p.side
  }

  /** What makes a dial fail before the transition table is consulted: the first of these that applies. */
  function Objection(p: Peer, hs: Hs): Option<nat> {
    if p.peerID == 0 && hs.socketID != 0 && hs.mss < 76 then Some(REJ_ROGUE)
    else if p.side.Draw? && hs.cookie != 0 && hs.cookie == p.cfg.cookie then Some(REJ_RDV_COOKIE)
    else if HasExt(hs) && hs.ext.value.cong != p.cfg.cong then Some(REJ_CONGESTION)
    else if HasExt(hs) && hs.ext.value.km.Some? && SideAfter(p, hs).Responder? && p.key.Some? && !p.kmAdopted
            && hs.ext.value.km.value.pass != p.cfg.pass then Some(REJ_BAD_SECRET)
    else None
  }

  /** A WAVEHAND that comes late is only answered. */
  predicate Stale(p: Peer, hs: Hs) {
    hs.kind.Wavehand? && (p.rstate.Fine? || p.rstate.Initiated?)
  }

  lemma HandleObjects(p: Peer, hs: Hs)
    requires p.status.Dialing? && !Stale(p, hs)
    ensures Objection(p, hs).Some? ==>
              Handle(p, hs).peer.status == Failed(Objection(p, hs).value) && Handle(p, hs).out == []
    ensures Objection(p, hs).None? ==>
              Handle(p, hs) == Advance(Adopt(Negotiate(ResolveSide(LearnPeer(p, hs), hs), hs), hs), hs)
  {
    hide SwitchState, CookieContest, Advance, NegotiateLatency, Adopt;
    ContestOpposite(p.cfg.cookie, hs.cookie);
  }

  /** A dial fails exactly on an objection or a message its state refuses, and then says nothing. */
  lemma HandleRefuses(p: Peer, hs: Hs)
    requires p.status.Dialing?
    ensures var h := Handle(p, hs); var side := SideAfter(p, hs);
            && (h.peer.status.Failed? <==>
                  !Stale(p, hs) && (Objection(p, hs).Some? || Refuses(p.rstate, hs.kind, side)))
            && (h.peer.status.Failed? ==>
                  h.out == [] && h.peer.status.code ==
                    if Objection(p, hs).Some? then Objection(p, hs).value
                    else if p.rstate.Attention? && hs.kind.Conclusion? then REJ_RDV_COOKIE else REJ_ROGUE)
  {
    hide SwitchState, CookieContest, Advance, Retransmit, Negotiate, Adopt, Refuses, Objection;
    RetransmitStatus(p);
    if !Stale(p, hs) {
      hide Handle;
      HandleObjects(p, hs);
      var p1 := ResolveSide(LearnPeer(p, hs), hs);
      OfferKeeps(p1, hs);
      AdvanceStatus(Adopt(Negotiate(p1, hs), hs), hs);
      SwitchExact(p.rstate, hs.kind, p1.side, HasExt(hs));
    }
  }

  lemma OfferKeeps(p: Peer, hs: Hs)
    ensures var q := Negotiate(p, hs);
            && q == p.(neg := q.neg)
            && Adopt(q, hs).status == p.status && Adopt(q, hs).rstate == p.rstate && Adopt(q, hs).side == p.side
  {
    hide NegotiateLatency;
  }

  lemma AdvanceStatus(p: Peer, hs: Hs)
    requires p.status.Dialing?
    ensures var t := SwitchState(p.rstate, hs.kind, p.side, HasExt(hs));
            if t.rspType.Rejection? then Advance(p, hs) == Fail(p, t.rspType.code)
            else !Advance(p, hs).peer.status.Failed?
  {
    hide SwitchState, ResponseTo;
  }

  lemma RetransmitStatus(p: Peer)
    ensures Retransmit(p).peer.status == p.status
  {
    hide ResponseTo;
  }

  function Advance(p: Peer, hs: Hs): Handled {
    var t := SwitchState(p.rstate, hs.kind, p.side, HasExt(hs));
    if t.rspType.Rejection? then Fail(p, t.rspType.code)
    else
      var p1 := p.(rstate := t.newState, last := Some(t));
      var p2 := Settle(p1, t);
      Handled(if t.newState.Connected? then Establish(p2) else p2, ResponseTo(p1, t))
  }
}

module RdvDialer {
  import opened Packets
  import opened RdvLogic

  /** The dialing connection: rdvDial's fields, updated in place by each handshake packet. */
  class Dialer {
    const cfg: PeerConfig
    var status: Status
    var rstate: State
    var side: Side
    var mss: nat
    var peerID: nat
    var peerISN: nat
    var peerFC: nat
    var neg: Option<Latency>
    var key: Option<int>
    var kmKey: nat
    var kmAdopted: bool
    var last: Option<Transition>
    var outputs: seq<Hs>

    function View(): Peer
      reads this
    {
      Peer(cfg, status, rstate, side, mss, peerID, peerISN, peerFC, neg, key, kmKey, kmAdopted, last)
    }

    constructor (cfg: PeerConfig)
      ensures View() == Dial(cfg) && outputs == [WavehandOf(Dial(cfg))]
    {
      this.cfg := cfg;
      status, rstate, side := Dialing, Waving, Draw;
      mss, peerID, peerISN, peerFC := cfg.mss, 0, 0, 0;
      neg, key, kmKey, kmAdopted, last := None, cfg.key, 0, false, None;
      outputs := [Hs(Wavehand, cfg.socketID, cfg.isn, cfg.mss, cfg.fc, cfg.cookie, None)];
    }

    method Emit(t: Transition)
      modifies this`kmKey, this`outputs
      ensures View() == Settle(old(View()), t)
      ensures outputs == old(outputs) + ResponseTo(old(View()), t)
    {
      match t.rspType
      case Conclusion =>
        var km: Option<KeyMaterial> := None;
        if t.needsExt && key.Some? {
          var slot := kmKey;
          if slot == 0 {
            slot := EVEN;
            if side == Initiator {
              kmKey := slot;
            }
          }
          km := Some(KeyMaterial(cfg.pass, slot, key.value));
        }
        var ext := if t.needsExt then Some(Extension(!t.needsHSRSP, cfg.lat, cfg.cong, km)) else None;
        outputs := outputs + [Hs(Conclusion, cfg.socketID, cfg.isn, mss, cfg.fc, cfg.cookie, ext)];
      case Agreement =>
        outputs := outputs + [Hs(Agreement, cfg.socketID, cfg.isn, mss, cfg.fc, 0, None)];
      case _ =>
    }

    method RetransmitStep()
      modifies this`kmKey, this`outputs
      ensures View() == Retransmit(old(View())).peer
      ensures outputs == old(outputs) + Retransmit(old(View())).out
    {
      if last.Some? {
        Emit(last.value);
      } else {
        outputs := outputs + [WavehandOf(View())];
      }
    }

    /** handleRendezvous: each packet updates the fields one after the other and may end the dial. */
    method HandleRendezvous(hs: Hs)
      requires status.Dialing?
      modifies this
      ensures View() == Handle(old(View()), hs).peer
      ensures outputs == old(outputs) + Handle(old(View()), hs).out
    {
      hide SwitchState, ResponseTo, Settle, CookieContest, Advance, Adopt, NegotiateLatency;
      assert outputs == outputs + [];
      if hs.kind == Wavehand && (rstate == Fine || rstate == Initiated) {
        RetransmitStep();
        return;
      }
      if peerID == 0 && hs.socketID != 0 && hs.mss < 76 {
        status := Failed(REJ_ROGUE);
        return;
      }
      var drawn := Identify(hs);
      if drawn {
        status := Failed(REJ_RDV_COOKIE);
        return;
      }
      if HasExt(hs) && cfg.cong != hs.ext.value.cong {
        status := Failed(REJ_CONGESTION);
        return;
      }
      var badSecret := TakeOffer(hs);
      if badSecret {
        status := Failed(REJ_BAD_SECRET);
        return;
      }
      Switch(hs, hs.kind == Conclusion && hs.ext.Some?);
    }

    /** Records who the peer is and resolves the role once both cookies are known. */
    method Identify(hs: Hs) returns (drawn: bool)
      modifies this`mss, this`peerID, this`peerISN, this`peerFC, this`side
      ensures View() == ResolveSide(LearnPeer(old(View()), hs), hs)
      ensures drawn <==> old(side).Draw? && hs.cookie != 0 && side.Draw?
    {
      hide CookieContest;
      drawn := false;
      if peerID == 0 && hs.socketID != 0 {
        mss := Min(mss, hs.mss);
        peerID := hs.socketID;
        peerISN := hs.isn;
        peerFC := hs.fc;
      }
      if side == Draw && hs.cookie != 0 {
        side := CookieContest(cfg.cookie, hs.cookie);
        drawn := side == Draw;
      }
    }

    /** Negotiates the latencies and, as the responder, adopts the initiator's key. */
    method TakeOffer(hs: Hs) returns (badSecret: bool)
      modifies this`neg, this`key, this`kmKey, this`kmAdopted
      ensures var p := Negotiate(old(View()), hs);
              && badSecret == (Adopts(p, hs) && hs.ext.value.km.value.pass != cfg.pass)
              && View() == if badSecret then p else Adopt(p, hs)
    {
      badSecret := false;
      if HasExt(hs) {
        var ext := hs.ext.value;
        if neg.None? {
          neg := Some(NegotiateLatency(cfg.lat, ext.lat));
        }
        if ext.km.Some? && key.Some? && side == Responder && !kmAdopted {
          if ext.km.value.pass != cfg.pass {
            return true;
          }
          key := Some(ext.km.value.key);
          kmKey := ext.km.value.slot;
          kmAdopted := true;
        }
      }
    }

    method Switch(hs: Hs, hasExt: bool)
      requires hasExt == HasExt(hs)
      modifies this
      ensures View() == Advance(old(View()), hs).peer
      ensures outputs == old(outputs) + Advance(old(View()), hs).out
    {
      assert outputs == outputs + [];
      var trans := SwitchState(rstate, hs.kind, side, hasExt);
      if trans.rspType.Rejection? {
        status := Failed(trans.rspType.code);
        return;
      }
      rstate := trans.newState;
      last := Some(trans);
      Emit(trans);
      if rstate == Connected {
        status := Establish(View()).status;
      }
    }
  }
}

module RdvRuns {
  import opened Packets
  import opened RdvLogic

  /** Two peers and the two directions of the channel, which never forget a datagram. */
  datatype Sys = Sys(i: Peer, r: Peer, toR: set<Hs>, toI: set<Hs>)

  /** What the two configurations must agree on; i names the peer that wins the cookie contest. */
  ghost predicate Compatible(i: PeerConfig, r: PeerConfig) {
    && i.cookie != 0 && r.cookie != 0 && CookieContest(i.cookie, r.cookie) == Initiator
    && i.socketID != 0 && r.socketID != 0 && i.mss >= 76 && r.mss >= 76 && i.fc > 0 && r.fc > 0
    && i.lat.recv > 0 && i.lat.send > 0 && r.lat.recv > 0 && r.lat.send > 0
    && i.cong == r.cong && i.pass == r.pass && (i.key.Some? <==> r.key.Some?)
  }

  /** Any two peers with distinct nonzero cookies can be named that way. */
  lemma SomeoneInitiates(a: Cookie, b: Cookie)
    requires a != b
    ensures CookieContest(a, b) == Initiator || CookieContest(b, a) == Initiator
  {
    ContestOpposite(a, b);
    ContestOpposite(b, a);
  }

  function Init(i: PeerConfig, r: PeerConfig): Sys {
    Sys(Dial(i), Dial(r), {WavehandOf(Dial(i))}, {WavehandOf(Dial(r))})
  }

  function Added(ms: seq<Hs>): set<Hs> {
    set m | m in ms
  }

  datatype Step = AtI(hs: Hs) | AtR(hs: Hs) | TimerI | TimerR

  ghost predicate Enabled(s: Sys, step: Step) {
    match step
    case AtI(hs) => hs in s.toI
    case AtR(hs) => hs in s.toR
    case TimerI => s.i.status.Dialing?
    case TimerR => s.r.status.Dialing?
  }

  function Do(s: Sys, step: Step): Sys {
    match step
    case AtI(hs) => var h := Handle(s.i, hs); s.(i := h.peer, toR := s.toR + Added(h.out))
    case AtR(hs) => var h := Handle(s.r, hs); s.(r := h.peer, toI := s.toI + Added(h.out))
    case TimerI => var h := Retransmit(s.i); s.(i := h.peer, toR := s.toR + Added(h.out))
    case TimerR => var h := Retransmit(s.r); s.(r := h.peer, toI := s.toI + Added(h.out))
  }

  // ---- the invariant ----

  /** Every datagram carries its sender's identity and offer. */
  ghost predicate From(cfg: PeerConfig, other: PeerConfig, hs: Hs) {
    && hs.socketID == cfg.socketID && hs.isn == cfg.isn && hs.fc == cfg.fc
    && (hs.mss == cfg.mss || hs.mss == Min(cfg.mss, other.mss))
    && hs.cookie == (if hs.kind.Agreement? then 0 else cfg.cookie)
  }

  ghost function KeyOffer(cfg: PeerConfig): Option<KeyMaterial> {
    if cfg.key.Some? then Some(KeyMaterial(cfg.pass, EVEN, cfg.key.value)) else None
  }

  /**
   * What the initiator may have said: WAVEHANDs, CONCLUSIONs that carry HSREQ and its key, and, once
   * connected, AGREEMENT.
   */
  ghost predicate SaidByI(s: Sys, hs: Hs) {
    && From(s.i.cfg, s.r.cfg, hs)
    && match hs.kind
       case Wavehand => hs.ext == None
       case Conclusion =>
         hs.ext == Some(Extension(true, s.i.cfg.lat, s.i.cfg.cong, KeyOffer(s.i.cfg))) && !s.i.rstate.Waving?
       case Agreement => hs.ext == None && s.i.status.Established?
       case _ => false
  }

  /** What the responder may have said: extensions only once it has heard the initiator's, and never AGREEMENT. */
  ghost predicate SaidByR(s: Sys, hs: Hs) {
    && From(s.r.cfg, s.i.cfg, hs)
    && match hs.kind
       case Wavehand => hs.ext == None
       case Conclusion =>
         hs.ext == None || (hs.ext == Some(Extension(false, s.r.cfg.lat, s.r.cfg.cong, KeyOffer(s.i.cfg)))
                            && Heard(s.r))
       case _ => false
  }

  /** The responder has processed a CONCLUSION of the initiator. */
  ghost predicate Heard(r: Peer) {
    r.rstate.Fine? || r.rstate.Initiated? || r.rstate.Connected?
  }

  ghost predicate Met(p: Peer, other: PeerConfig) {
    && p.peerID == other.socketID && p.peerISN == other.isn && p.peerFC == other.fc
    && p.mss == Min(p.cfg.mss, other.mss)
  }

  ghost predicate Fresh(p: Peer) {
    p == Dial(p.cfg)
  }

  ghost predicate InvI(i: Peer, other: PeerConfig) {
    || Fresh(i)
    || (&& Met(i, other) && i.side.Initiator? && i.key == i.cfg.key && !i.kmAdopted
        && i.kmKey == (if i.cfg.key.Some? then EVEN else 0)
        && match i.status
           case Dialing =>
             (i.rstate.Attention? || i.rstate.Fine?) && i.neg.None?
             && i.last.Some? && i.last.value.rspType.Conclusion? && i.last.value.needsExt && !i.last.value.needsHSRSP
           case Established(params) => i.rstate.Connected? && params == Agreed(i.cfg, other, i.cfg.key)
           case Failed(_) => false)
  }

  /** The parameters a compatible pair settles on, from one end. */
  ghost function Agreed(cfg: PeerConfig, other: PeerConfig, key: Option<int>): Params {
    Params(other.socketID, cfg.isn, other.isn, Min(cfg.mss, other.mss), Min(cfg.fc, other.fc),
           NegotiateLatency(cfg.lat, other.lat), key, EVEN)
  }

  ghost predicate InvR(r: Peer, other: PeerConfig) {
    || Fresh(r)
    || (&& Met(r, other) && r.side.Responder?
        && match r.status
           case Dialing =>
             && r.last.Some? && r.last.value.rspType.Conclusion?
             && ((r.rstate.Attention? && r.neg.None? && r.key == r.cfg.key && r.kmKey == 0 && !r.kmAdopted
                  && !r.last.value.needsExt)
              || ((r.rstate.Fine? || r.rstate.Initiated?) && r.last.value.needsExt && r.last.value.needsHSRSP
                  && r.neg == Some(NegotiateLatency(r.cfg.lat, other.lat))
                  && r.key == other.key && r.kmKey == (if other.key.Some? then EVEN else 0)
                  && r.kmAdopted == other.key.Some?))
           case Established(params) => r.rstate.Connected? && params == Agreed(r.cfg, other, other.key)
           case Failed(_) => false)
  }

  ghost predicate Inv(s: Sys) {
    && Compatible(s.i.cfg, s.r.cfg)
    && InvI(s.i, s.r.cfg) && InvR(s.r, s.i.cfg)
    && (forall hs :: hs in s.toR ==> SaidByI(s, hs))
    && (forall hs :: hs in s.toI ==> SaidByR(s, hs))
    && (Heard(s.r) ==> !s.i.rstate.Waving?)
    && (s.i.status.Established? ==> Heard(s.r))
    && (s.r.status.Established? ==> s.i.status.Established?)
  }

  lemma InitInv(i: PeerConfig, r: PeerConfig)
    requires Compatible(i, r)
    ensures Inv(Init(i, r))
  {
  }

  /** One datagram at the initiator: it stays in its invariant, never fails, and says only what it may. */
  ghost predicate GoodAtI(s: Sys, h: Handled) {
    && h.peer.cfg == s.i.cfg && InvI(h.peer, s.r.cfg)
    && (forall m :: m in h.out ==> SaidByI(s.(i := h.peer), m))
    && (s.i.status.Established? ==> h.peer.status.Established?)
    && (!s.i.rstate.Waving? ==> !h.peer.rstate.Waving?)
    && (h.peer.status.Established? ==> Heard(s.r))
  }

  lemma HandleAtI(s: Sys, hs: Hs)
    requires Inv(s) && hs in s.toI
    ensures GoodAtI(s, Handle(s.i, hs))
  {
    assert SaidByR(s, hs);
    if Fresh(s.i) {
      FreshAtI(s, hs);
    } else if s.i.status.Dialing? {
      DialingAtI(s, hs);
    }
  }

  lemma FreshAtI(s: Sys, hs: Hs)
    requires Inv(s) && SaidByR(s, hs) && Fresh(s.i)
    ensures GoodAtI(s, Handle(s.i, hs))
  {
    hide Agreed, InvR, Establish, CookieContest;
  }

  lemma DialingAtI(s: Sys, hs: Hs)
    requires Inv(s) && SaidByR(s, hs) && !Fresh(s.i) && s.i.status.Dialing?
    ensures GoodAtI(s, Handle(s.i, hs))
  {
    hide InvR, CookieContest;
  }

  ghost predicate GoodAtR(s: Sys, h: Handled) {
    && h.peer.cfg == s.r.cfg && InvR(h.peer, s.i.cfg)
    && (forall m :: m in h.out ==> SaidByR(s.(r := h.peer), m))
    && (Heard(s.r) ==> Heard(h.peer))
    && (Heard(h.peer) ==> !s.i.rstate.Waving?)
    && (h.peer.status.Established? ==> s.i.status.Established?)
  }

  lemma HandleAtR(s: Sys, hs: Hs)
    requires Inv(s) && hs in s.toR
    ensures GoodAtR(s, Handle(s.r, hs))
  {
    assert SaidByI(s, hs);
    ContestOpposite(s.i.cfg.cookie, s.r.cfg.cookie);
    if Fresh(s.r) {
      FreshAtR(s, hs);
    } else if s.r.status.Dialing? {
      if s.r.rstate.Attention? {
        AttentionAtR(s, hs);
      } else {
        HeardAtR(s, hs);
      }
    }
  }

  lemma FreshAtR(s: Sys, hs: Hs)
    requires Inv(s) && SaidByI(s, hs) && Fresh(s.r) && CookieContest(s.r.cfg.cookie, s.i.cfg.cookie) == Responder
    ensures GoodAtR(s, Handle(s.r, hs))
  {
    hide Agreed, InvI, Establish, CookieContest;
  }

  lemma AttentionAtR(s: Sys, hs: Hs)
    requires Inv(s) && SaidByI(s, hs) && !Fresh(s.r) && s.r.status.Dialing? && s.r.rstate.Attention?
    ensures GoodAtR(s, Handle(s.r, hs))
  {
    hide Agreed, InvI, Establish, CookieContest;
  }

  lemma HeardAtR(s: Sys, hs: Hs)
    requires Inv(s) && SaidByI(s, hs) && !Fresh(s.r) && s.r.status.Dialing? && !s.r.rstate.Attention?
    ensures GoodAtR(s, Handle(s.r, hs))
  {
    hide InvI, CookieContest;
  }

  lemma RetransmitAtI(s: Sys)
    requires Inv(s) && s.i.status.Dialing?
    ensures var h := Retransmit(s.i);
            h.peer == s.i && forall m :: m in h.out ==> SaidByI(s, m)
  {
  }

  lemma RetransmitAtR(s: Sys)
    requires Inv(s) && s.r.status.Dialing?
    ensures var h := Retransmit(s.r);
            h.peer == s.r && forall m :: m in h.out ==> SaidByR(s, m)
  {
  }

  lemma StepKeeps(s: Sys, step: Step)
    requires Inv(s) && Enabled(s, step)
    ensures Inv(Do(s, step))
  {
    hide Handle, Retransmit, InvI, InvR;
    match step
    case AtI(hs) => HandleAtI(s, hs);
    case AtR(hs) => HandleAtR(s, hs);
    case TimerI => RetransmitAtI(s);
    case TimerR => RetransmitAtR(s);
  }

  ghost predicate IsRun(i: PeerConfig, r: PeerConfig, states: seq<Sys>, steps: seq<Step>) {
    && |states| == |steps| + 1 && states[0] == Init(i, r)
    && forall n :: 0 <= n < |steps| ==> Enabled(states[n], steps[n]) && states[n + 1] == Do(states[n], steps[n])
  }

  lemma {:induction false} RunInv(i: PeerConfig, r: PeerConfig, states: seq<Sys>, steps: seq<Step>, n: nat)
    requires Compatible(i, r) && IsRun(i, r, states, steps) && n < |states|
    ensures Inv(states[n]) && states[n].i.cfg == i && states[n].r.cfg == r
  {
    if n == 0 {
      InitInv(i, r);
    } else {
      RunInv(i, r, states, steps, n - 1);
      StepKeeps(states[n - 1], steps[n - 1]);
      KeepsConfig(states[n - 1], steps[n - 1]);
    }
  }

  lemma KeepsConfig(s: Sys, step: Step)
    requires Inv(s) && Enabled(s, step)
    ensures Do(s, step).i.cfg == s.i.cfg && Do(s, step).r.cfg == s.r.cfg
  {
    hide Handle, Retransmit;
    match step
    case AtI(hs) => HandleAtI(s, hs);
    case AtR(hs) => HandleAtR(s, hs);
    case TimerI => RetransmitAtI(s);
    case TimerR => RetransmitAtR(s);
  }

  /**
   * Safety of the rendezvous over every run: nobody fails; resolved roles are opposite; a connected
   * responder has a connected initiator; a connected initiator has a responder that heard it; and
   * when both are connected, each end's parameters are the mirror image of the other's.
   */
  lemma RendezvousSafe(i: PeerConfig, r: PeerConfig, states: seq<Sys>, steps: seq<Step>, n: nat)
    requires Compatible(i, r) && IsRun(i, r, states, steps) && n < |states|
    ensures var s := states[n];
            && !s.i.status.Failed? && !s.r.status.Failed?
            && (s.i.side.Draw? || s.i.side.Initiator?) && (s.r.side.Draw? || s.r.side.Responder?)
            && (s.r.status.Established? ==> s.i.status.Established?)
            && (s.i.status.Established? ==> s.r.rstate.Fine? || s.r.rstate.Initiated? || s.r.rstate.Connected?)
            && (s.i.status.Established? && s.r.status.Established? ==>
                  Mirror(s.i.status.params, s.r.status.params, i, r))
  {
    RunInv(i, r, states, steps, n);
  }

  /**
   * Both ends agree: identities and sequence numbers cross; packet size and window are the smaller offer;
   * each direction's latency is the larger demand; the initiator's key is shared, in the even slot.
   */
  ghost predicate Mirror(a: Params, b: Params, i: PeerConfig, r: PeerConfig) {
    && a.peerID == r.socketID && b.peerID == i.socketID
    && a.sendISN == b.recvISN == i.isn && b.sendISN == a.recvISN == r.isn
    && IsSmaller(a.mss, i.mss, r.mss) && b.mss == a.mss
    && IsSmaller(a.flowWindow, i.fc, r.fc) && b.flowWindow == a.flowWindow
    && IsLarger(a.lat.recv, i.lat.recv, r.lat.send) && b.lat.send == a.lat.recv
    && IsLarger(a.lat.send, i.lat.send, r.lat.recv) && b.lat.recv == a.lat.send
    && a.key == b.key == i.key && a.activeKey == b.activeKey == EVEN
  }

  predicate IsSmaller(x: nat, a: nat, b: nat) {
    x <= a && x <= b && (x == a || x == b)
  }

  predicate IsLarger(x: nat, a: nat, b: nat) {
    x >= a && x >= b && (x == a || x == b)
  }

  /** The responder can never be handed an AGREEMENT before it has heard a CONCLUSION. */
  lemma AgreementNeverEarly(i: PeerConfig, r: PeerConfig, states: seq<Sys>, steps: seq<Step>, n: nat, hs: Hs)
    requires Compatible(i, r) && IsRun(i, r, states, steps) && n < |states|
    requires hs in states[n].toR && hs.kind.Agreement?
    ensures Heard(states[n].r)
  {
    RunInv(i, r, states, steps, n);
    assert SaidByI(states[n], hs);
  }

  // ---- what each datagram achieves ----

  /** The initiator's CONCLUSION: a request with its latencies and its key. */
  ghost function Offer(i: PeerConfig, r: PeerConfig): Hs {
    Hs(Conclusion, i.socketID, i.isn, Min(i.mss, r.mss), i.fc, i.cookie,
       Some(Extension(true, i.lat, i.cong, KeyOffer(i))))
  }

  /** The responder's CONCLUSION once it has heard the offer: a response that echoes the key. */
  ghost function Answer(i: PeerConfig, r: PeerConfig): Hs {
    Hs(Conclusion, r.socketID, r.isn, Min(r.mss, i.mss), r.fc, r.cookie,
       Some(Extension(false, r.lat, r.cong, KeyOffer(i))))
  }

  ghost function Assent(i: PeerConfig, r: PeerConfig): Hs {
    Hs(Agreement, i.socketID, i.isn, Min(i.mss, r.mss), i.fc, 0, None)
  }

  /** The responder's CONCLUSION before it has heard one. */
  ghost function Nod(i: PeerConfig, r: PeerConfig): Hs {
    Hs(Conclusion, r.socketID, r.isn, Min(r.mss, i.mss), r.fc, r.cookie, None)
  }

  /**
   * A dialing initiator connects on exactly the responses it gets after its first step, and then says
   * AGREEMENT; everything else it answers with its offer.
   */
  lemma AtIExact(s: Sys, hs: Hs)
    requires Inv(s) && hs in s.toI && s.i.status.Dialing?
    ensures var h := Handle(s.i, hs);
            && (h.peer.status.Established? <==> hs.kind.Conclusion? && hs.ext.Some? && !s.i.rstate.Waving?)
            && !h.peer.rstate.Waving?
            && h.out == [if h.peer.status.Established? then Assent(s.i.cfg, s.r.cfg) else Offer(s.i.cfg, s.r.cfg)]
  {
    hide CookieContest, NegotiateLatency, InvR;
    assert SaidByR(s, hs);
    HandleAtI(s, hs);
  }

  /**
   * A dialing responder connects on exactly AGREEMENT; a CONCLUSION makes it heard; and it answers every
   * CONCLUSION, and every WAVEHAND after one, with its response.
   */
  lemma AtRExact(s: Sys, hs: Hs)
    requires Inv(s) && hs in s.toR && s.r.status.Dialing?
    ensures var h := Handle(s.r, hs);
            && (h.peer.status.Established? <==> hs.kind.Agreement?)
            && (Heard(h.peer) <==> Heard(s.r) || hs.kind.Conclusion?)
            && h.out == (if hs.kind.Agreement? then []
                         else [if Heard(h.peer) then Answer(s.i.cfg, s.r.cfg) else Nod(s.i.cfg, s.r.cfg)])
  {
    hide CookieContest, NegotiateLatency, InvI;
    assert SaidByI(s, hs);
    ContestOpposite(s.i.cfg.cookie, s.r.cfg.cookie);
    HandleAtR(s, hs);
  }

  /** The timer repeats the current step. */
  lemma TimersExact(s: Sys)
    requires Inv(s)
    ensures s.i.status.Dialing? ==>
              Retransmit(s.i).out == [if Fresh(s.i) then WavehandOf(Dial(s.i.cfg)) else Offer(s.i.cfg, s.r.cfg)]
    ensures s.r.status.Dialing? ==>
              Retransmit(s.r).out == [if Fresh(s.r) then WavehandOf(Dial(s.r.cfg))
                                      else if Heard(s.r) then Answer(s.i.cfg, s.r.cfg) else Nod(s.i.cfg, s.r.cfg)]
  {
    hide CookieContest, NegotiateLatency;
  }

  // ---- completion stays possible ----

  /** What the channel is known to carry. */
  ghost predicate Carried(s: Sys) {
    && WavehandOf(Dial(s.r.cfg)) in s.toI
    && (s.i.status.Established? ==> Assent(s.i.cfg, s.r.cfg) in s.toR)
  }

  lemma StepCarries(s: Sys, step: Step)
    requires Inv(s) && Enabled(s, step) && Carried(s)
    ensures Carried(Do(s, step))
  {
    hide Handle, Retransmit, Inv;
    KeepsConfig(s, step);
    if step.AtI? {
      if s.i.status.Dialing? {
        AtIExact(s, step.hs);
      } else {
        NotDialing(s.i, step.hs);
      }
    } else if step.TimerI? {
      RetransmitAtI(s);
    }
  }

  lemma NotDialing(p: Peer, hs: Hs)
    requires !p.status.Dialing?
    ensures Handle(p, hs) == Handled(p, [])
  {
  }

  ghost predicate IsRunFrom(s: Sys, states: seq<Sys>, steps: seq<Step>) {
    && |states| == |steps| + 1 && states[0] == s
    && forall n :: 0 <= n < |steps| ==> Enabled(states[n], steps[n]) && states[n + 1] == Do(states[n], steps[n])
  }

  /** One more step at the end of a run. */
  lemma Extend(s: Sys, states: seq<Sys>, steps: seq<Step>, step: Step) returns (t: Sys)
    requires IsRunFrom(s, states, steps) && Enabled(states[|steps|], step)
    requires Inv(states[|steps|]) && Carried(states[|steps|])
    ensures t == Do(states[|steps|], step) && Inv(t) && Carried(t) && IsRunFrom(s, states + [t], steps + [step])
    ensures t.i.cfg == states[|steps|].i.cfg && t.r.cfg == states[|steps|].r.cfg
  {
    hide Inv, Carried, Do, Enabled;
    t := Do(states[|steps|], step);
    StepKeeps(states[|steps|], step);
    StepCarries(states[|steps|], step);
    KeepsConfig(states[|steps|], step);
  }

  /** A step after which the offer is on its way. */
  lemma OfferStep(s: Sys) returns (step: Step)
    requires Inv(s) && Carried(s) && s.i.status.Dialing?
    ensures Enabled(s, step) && Offer(s.i.cfg, s.r.cfg) in Do(s, step).toR && !Do(s, step).i.rstate.Waving?
    ensures Do(s, step).r == s.r
  {
    hide Inv, Handle, Retransmit;
    if Fresh(s.i) {
      var hs := WavehandOf(Dial(s.r.cfg));
      step := AtI(hs);
      AtIExact(s, hs);
    } else {
      step := TimerI;
      TimersExact(s);
      RetransmitAtI(s);
      StartedIsNotWaving(s);
    }
  }

  lemma StartedIsNotWaving(s: Sys)
    requires Inv(s) && s.i.status.Dialing? && !Fresh(s.i)
    ensures !s.i.rstate.Waving?
  {
  }

  /** A step after which the response is on its way. */
  lemma AnswerStep(s: Sys) returns (step: Step)
    requires Inv(s) && s.r.status.Dialing? && (!Heard(s.r) ==> Offer(s.i.cfg, s.r.cfg) in s.toR)
    ensures Enabled(s, step) && Answer(s.i.cfg, s.r.cfg) in Do(s, step).toI && Heard(Do(s, step).r)
    ensures Do(s, step).i == s.i
  {
    hide Inv, Handle, Retransmit;
    if !Heard(s.r) {
      step := AtR(Offer(s.i.cfg, s.r.cfg));
      AtRExact(s, Offer(s.i.cfg, s.r.cfg));
    } else {
      step := TimerR;
      TimersExact(s);
      RetransmitAtR(s);
    }
  }

  lemma Order(s: Sys)
    requires Inv(s)
    ensures s.r.status.Established? ==> s.i.status.Established?
    ensures s.i.status.Established? ==> Heard(s.r)
    ensures Heard(s.r) ==> !s.i.rstate.Waving?
    ensures !s.i.status.Failed? && !s.r.status.Failed?
    ensures s.i.status.Established? && s.r.status.Established? ==>
              Mirror(s.i.status.params, s.r.status.params, s.i.cfg, s.r.cfg)
  {
  }

  /** From a state in which the initiator is connected, the AGREEMENT connects the responder. */
  lemma LastStep(s: Sys, states: seq<Sys>, steps: seq<Step>) returns (states': seq<Sys>, steps': seq<Step>)
    requires IsRunFrom(s, states, steps) && Inv(states[|steps|]) && Carried(states[|steps|])
    requires states[|steps|].i.status.Established?
    ensures IsRunFrom(s, states', steps') && |steps'| <= |steps| + 1 && Inv(states'[|steps'|])
    ensures states'[|steps'|].i.status.Established? && states'[|steps'|].r.status.Established?
    ensures states'[|steps'|].i.cfg == states[|steps|].i.cfg && states'[|steps'|].r.cfg == states[|steps|].r.cfg
  {
    hide Inv, Handle;
    var u := states[|steps|];
    states', steps' := states, steps;
    Order(u);
    if u.r.status.Dialing? {
      var hs := Assent(u.i.cfg, u.r.cfg);
      AtRExact(u, hs);
      var t := Extend(s, states, steps, AtR(hs));
      states', steps' := states + [t], steps + [AtR(hs)];
    }
  }

  /**
   * Completion stays possible: from every state of every run, whatever was lost, duplicated or reordered
   * before, at most four more deliveries or timer firings connect both ends, with mirrored parameters.
   */
  lemma CanComplete(i: PeerConfig, r: PeerConfig, states: seq<Sys>, steps: seq<Step>, n: nat)
    returns (more: seq<Sys>, moves: seq<Step>)
    requires Compatible(i, r) && IsRun(i, r, states, steps) && n < |states|
    ensures IsRunFrom(states[n], more, moves) && |moves| <= 4
    ensures var t := more[|moves|];
            && t.i.status.Established? && t.r.status.Established?
            && Mirror(t.i.status.params, t.r.status.params, i, r)
  {
    hide Inv, Carried, Mirror;
    RunInv(i, r, states, steps, n);
    RunCarries(i, r, states, steps, n);
    var s := states[n];
    more, moves := [s], [];
    Order(s);
    if s.i.status.Dialing? {
      var step := OfferStep(s);
      var t := Extend(s, more, moves, step);
      more, moves := more + [t], moves + [step];
      Order(t);
      if t.i.status.Dialing? {
        more, moves := Middle(s, more, moves);
      }
    }
    Order(more[|moves|]);
    more, moves := LastStep(s, more, moves);
    Order(more[|moves|]);
  }

  /** The offer is out and the initiator waits: the response connects it. */
  lemma Middle(s: Sys, states: seq<Sys>, steps: seq<Step>) returns (states': seq<Sys>, steps': seq<Step>)
    requires IsRunFrom(s, states, steps) && Inv(states[|steps|]) && Carried(states[|steps|])
    requires var u := states[|steps|];
             u.i.status.Dialing? && !u.i.rstate.Waving? && Offer(u.i.cfg, u.r.cfg) in u.toR
    ensures IsRunFrom(s, states', steps') && |steps'| <= |steps| + 2
    ensures Inv(states'[|steps'|]) && Carried(states'[|steps'|]) && states'[|steps'|].i.status.Established?
    ensures states'[|steps'|].i.cfg == states[|steps|].i.cfg && states'[|steps'|].r.cfg == states[|steps|].r.cfg
  {
    hide Inv, Carried, Handle, Mirror;
    var u := states[|steps|];
    Order(u);
    var step := AnswerStep(u);
    var t := Extend(s, states, steps, step);
    states', steps' := states + [t], steps + [step];
    var hs := Answer(t.i.cfg, t.r.cfg);
    AtIExact(t, hs);
    var v := Extend(s, states', steps', AtI(hs));
    states', steps' := states' + [v], steps' + [AtI(hs)];
  }

  lemma {:induction false} RunCarries(i: PeerConfig, r: PeerConfig, states: seq<Sys>, steps: seq<Step>, n: nat)
    requires Compatible(i, r) && IsRun(i, r, states, steps) && n < |states|
    ensures Carried(states[n])
  {
    hide Inv, Do, Enabled;
    if n > 0 {
      RunInv(i, r, states, steps, n - 1);
      RunCarries(i, r, states, steps, n - 1);
      StepCarries(states[n - 1], steps[n - 1]);
    }
  }

  /**
   * But the AGREEMENT is said only once: a connected initiator is silent, so a responder whose copy never
   * arrives stays unconnected.
   */
  lemma AgreementNotRepeated(s: Sys, step: Step)
    requires Inv(s) && Enabled(s, step) && s.i.status.Established?
    ensures Do(s, step).toR == s.toR
    ensures Do(s, step).r.status.Established? && !s.r.status.Established? ==> step.AtR? && step.hs.kind.Agreement?
  {
    hide Inv, Handle, Retransmit;
    match step
    case AtI(hs) => NotDialing(s.i, hs);
    case AtR(hs) =>
      if s.r.status.Dialing? {
        AtRExact(s, hs);
      } else {
        NotDialing(s.r, hs);
      }
    case TimerI =>
    case TimerR => RetransmitAtR(s);
  }
}
