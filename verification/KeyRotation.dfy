/**
 * Mid-stream rotation of the stream encryption key (internal/core/keyrotation.go): every encrypted
 * send may announce the next key, switch to it, and clear the one before.
 */
module RotationRuns {
  import opened Packets

  const MAX_RETRY: nat := 10

  datatype Slot = Even | Odd {
    function Opposite(): Slot {
      if this == Even then Odd else Even
    }
  }

  /** After this many packets the key changes; it is announced this many packets before. */
  datatype Config = Config(refresh: nat, pre: nat)

  /** What connection setup makes of the configured values. */
  function Establish(refresh: nat, pre: nat): Config {
    if refresh > 0 && (pre == 0 || pre >= refresh) then Config(refresh, refresh / 2) else Config(refresh, pre)
  }

  datatype Switch = Switch(key: nat, at: nat)

  /**
   * The rotation state, with every generated key numbered. The last fields are history: the send
   * count, and for each key when it was announced, how many packets it encrypted and how often it
   * was announced to the peer; and the switches so far.
   */
  datatype Rotation = Rotation(
    count: nat,
    active: Slot,
    announced: bool,
    confirmed: bool,
    retries: nat,
    retrySlot: Slot,
    decommission: bool,
    switchCount: nat,
    even: Option<nat>,
    odd: Option<nat>,
    sends: nat,
    born: seq<nat>,
    used: seq<nat>,
    asked: seq<nat>,
    switches: seq<Switch>)
  {
    function Key(slot: Slot): Option<nat> {
      if slot == Even then even else odd
    }

    function WithKey(slot: Slot, k: Option<nat>): Rotation {
      if slot == Even then this.(even := k) else this.(odd := k)
    }
  }

  function Bump(s: seq<nat>, k: Option<nat>): seq<nat> {
    if k.Some? && k.value < |s| then s[k.value := s[k.value] + 1] else s
  }

  /** Sends the key of a slot to the peer; nothing goes out for an empty slot. */
  function Request(s: Rotation, slot: Slot): Rotation {
    s.(asked := Bump(s.asked, s.Key(slot)))
  }

  // ---- one encrypted send ----

  function Encrypt(s: Rotation): Rotation {
    s.(used := Bump(s.used, s.Key(s.active)), sends := s.sends + 1)
  }

  predicate AnnounceDue(s: Rotation, cfg: Config)
    requires cfg.pre <= cfg.refresh
  {
    !s.announced && s.count >= cfg.refresh - cfg.pre
  }

  function Announce(s: Rotation): Rotation {
    var slot := s.active.Opposite();
    var g := s.WithKey(slot, Some(|s.born|)).(
      born := s.born + [s.sends], used := s.used + [0], asked := s.asked + [0],
      announced := true, confirmed := false, retrySlot := slot, retries := MAX_RETRY);
    Request(g, slot)
  }

  function SwitchKey(s: Rotation): Rotation {
    var slot := s.active.Opposite();
    s.(active := slot, count := 0, announced := false, decommission := true, switchCount := 0,
       switches := if s.Key(slot).Some? then s.switches + [Switch(s.Key(slot).value, s.sends)] else s.switches)
  }

  function MaybeSwitch(s: Rotation, cfg: Config): Rotation {
    if s.count >= cfg.refresh then SwitchKey(s) else s
  }

  /** The decommission step clears the slot that is not active. */
  predicate ClearDue(s: Rotation, cfg: Config) {
    s.decommission && s.switchCount + 1 >= cfg.pre
  }

  function Decommission(s: Rotation, cfg: Config): Rotation {
    if !s.decommission then s
    else
      var t := s.(switchCount := s.switchCount + 1);
      if ClearDue(s, cfg) then t.WithKey(s.active.Opposite(), None).(decommission := false) else t
  }

  /** generated tells whether the source of randomness delivers when a key is due. */
  function Check(s: Rotation, cfg: Config, generated: bool): Rotation
    requires cfg.pre <= cfg.refresh
  {
    var c := s.(count := s.count + 1);
    if !AnnounceDue(c, cfg) then Decommission(MaybeSwitch(c, cfg), cfg)
    else if generated then Decommission(MaybeSwitch(Announce(c), cfg), cfg)
    else c
  }

  function Retry(s: Rotation): Rotation {
    if !s.announced || s.confirmed || s.retries == 0 then s else Request(s.(retries := s.retries - 1), s.retrySlot)
  }

  datatype Step = Send(generated: bool) | RetryTimer | Confirm

  function Do(s: Rotation, step: Step, cfg: Config): Rotation
    requires cfg.refresh > 0 ==> cfg.pre <= cfg.refresh
  {
    match step
    case Send(generated) => if cfg.refresh > 0 then Check(Encrypt(s), cfg, generated) else Encrypt(s)
    case RetryTimer => Retry(s)
    case Confirm => s.(confirmed := true)
  }

  /** A connected state: key 0 in the active slot, perhaps another key in the other. */
  function Start(active: Slot, both: bool): Rotation {
    var s := Rotation(0, active, false, false, 0, active, false, 0, None, None, 0,
                      if both then [0, 0] else [0], if both then [0, 0] else [0], if both then [0, 0] else [0], []);
    var t := s.WithKey(active, Some(0));
    if both then t.WithKey(active.Opposite(), Some(1)) else t
  }

  function After(s: Rotation, steps: seq<Step>, cfg: Config): Rotation
    requires cfg.refresh > 0 ==> cfg.pre <= cfg.refresh
  {
    if steps == [] then s else Do(After(s, steps[..|steps| - 1], cfg), steps[|steps| - 1], cfg)
  }

  // ---- safety ----

  /** Settings under which a key is cleared before its slot is needed for the next one. */
  predicate Safe(cfg: Config) {
    0 < cfg.refresh && cfg.pre < cfg.refresh && 2 * cfg.pre <= cfg.refresh
  }

  predicate Lives(s: Rotation, slot: Slot) {
    s.Key(slot).Some? && s.Key(slot).value < |s.born|
  }

  ghost predicate Sized(s: Rotation) {
    |s.born| == |s.used| == |s.asked|
  }

  /** The keys in play are alive, and the old key is cleared before its slot is announced anew. */
  ghost predicate Keyed(s: Rotation, cfg: Config)
    requires cfg.pre <= cfg.refresh
  {
    && Sized(s)
    && Lives(s, s.active)
    && (s.announced ==>
          && Lives(s, s.active.Opposite()) && s.retrySlot == s.active.Opposite()
          && cfg.refresh - cfg.pre <= s.count < cfg.refresh)
    && (s.announced ==> s.Key(s.active.Opposite()) != s.Key(s.active))
    && (s.decommission ==> !s.announced && s.switchCount == s.count + 1 < cfg.pre)
  }

  lemma AnnounceFacts(s: Rotation)
    requires Sized(s) && Lives(s, s.active)
    ensures var a := Announce(s);
            && Sized(a) && Lives(a, a.active) && Lives(a, a.active.Opposite())
            && a.Key(a.active) == s.Key(s.active) && a.Key(a.active.Opposite()) == Some(|s.born|)
  {
  }

  lemma CheckKeyed(s: Rotation, cfg: Config, generated: bool)
    requires Safe(cfg) && Keyed(s, cfg)
    ensures Keyed(Check(s, cfg, generated), cfg)
  {
    hide Announce, MaybeSwitch, Decommission;
    var c := s.(count := s.count + 1);
    if !AnnounceDue(c, cfg) {
      FinishKeyed(c, cfg);
    } else if generated {
      AnnounceFacts(c);
      AnnounceKeeps(c);
      assert !c.decommission;
      FinishKeyed(Announce(c), cfg);
    }
  }

  lemma FinishKeyed(a: Rotation, cfg: Config)
    requires Safe(cfg) && Sized(a) && Lives(a, a.active)
    requires a.announced ==>
               && Lives(a, a.active.Opposite()) && a.retrySlot == a.active.Opposite()
               && a.Key(a.active.Opposite()) != a.Key(a.active)
    requires a.announced <==> a.count >= cfg.refresh - cfg.pre
    requires a.decommission ==> !a.announced && a.switchCount == a.count < cfg.pre
    ensures Keyed(Decommission(MaybeSwitch(a, cfg), cfg), cfg)
  {
  }

  /** Announcing leaves the counters alone. */
  lemma AnnounceKeeps(s: Rotation)
    ensures var a := Announce(s);
            && a.count == s.count && a.active == s.active && a.announced && a.decommission == s.decommission
            && a.switchCount == s.switchCount && a.retrySlot == s.active.Opposite() && a.sends == s.sends
            && a.switches == s.switches && a.born == s.born + [s.sends] && a.used == s.used + [0]
            && a.retries == MAX_RETRY && a.Key(s.active) == s.Key(s.active)
  {
  }

  lemma AnnounceRequests(s: Rotation)
    requires |s.asked| == |s.born|
    ensures var a := Announce(s);
            && a.asked == Bump(s.asked + [0], Some(|s.born|)) && |a.asked| == |a.born| && !a.confirmed
            && a.Key(s.active.Opposite()) == Some(|s.born|)
  {
  }

  lemma DoKeyed(s: Rotation, step: Step, cfg: Config)
    requires Safe(cfg) && Keyed(s, cfg)
    ensures Keyed(Do(s, step, cfg), cfg)
  {
    hide Check;
    match step
    case Send(generated) => CheckKeyed(Encrypt(s), cfg, generated);
    case RetryTimer =>
    case Confirm =>
  }

  /**
   * In every run, also when generating a key fails or replies are lost, the active slot holds a live
   * key and an announced key stays alive until it is switched to.
   */
  lemma {:induction false} ActiveAlwaysLives(active: Slot, both: bool, steps: seq<Step>, cfg: Config)
    requires Safe(cfg)
    ensures var s := After(Start(active, both), steps, cfg);
            Keyed(s, cfg) && Lives(s, s.active) && (s.announced ==> Lives(s, s.active.Opposite()))
  {
    hide Do;
    if steps != [] {
      ActiveAlwaysLives(active, both, steps[..|steps| - 1], cfg);
      DoKeyed(After(Start(active, both), steps[..|steps| - 1], cfg), steps[|steps| - 1], cfg);
    }
  }

  /** A clear never hits the active or the announced key. */
  lemma ClearMissesKeysInUse(s: Rotation, cfg: Config, generated: bool)
    requires Safe(cfg) && Keyed(s, cfg)
    ensures var c := s.(count := s.count + 1);
            var a := if AnnounceDue(c, cfg) && generated then Announce(c) else c;
            ClearDue(MaybeSwitch(a, cfg), cfg) ==> !MaybeSwitch(a, cfg).announced
  {
    hide Announce;
    AnnounceKeeps(s.(count := s.count + 1));
  }

  // ---- how often and when ----

  /** A key goes out at most eleven times: the announcement and its retries. */
  ghost predicate Asked(s: Rotation) {
    && Sized(s)
    && (forall k :: 0 <= k < |s.asked| ==> s.asked[k] <= 1 + MAX_RETRY)
    && s.retries <= MAX_RETRY
    && (s.announced && Lives(s, s.retrySlot) ==> s.asked[s.Key(s.retrySlot).value] == 1 + MAX_RETRY - s.retries)
  }

  lemma AnnounceAsks(s: Rotation)
    requires Asked(s) && Lives(s, s.active)
    ensures Asked(Announce(s))
  {
  }

  lemma CheckAsked(s: Rotation, cfg: Config, generated: bool)
    requires Safe(cfg) && Keyed(s, cfg) && Asked(s)
    ensures Asked(Check(s, cfg, generated))
  {
    hide Announce;
    var c := s.(count := s.count + 1);
    if AnnounceDue(c, cfg) && generated {
      AnnounceAsks(c);
      AnnounceFacts(c);
      AnnounceKeeps(c);
    }
  }

  lemma DoAsked(s: Rotation, step: Step, cfg: Config)
    requires Safe(cfg) && Keyed(s, cfg) && Asked(s)
    ensures Asked(Do(s, step, cfg))
  {
    hide Check;
    match step
    case Send(generated) => CheckAsked(Encrypt(s), cfg, generated);
    case RetryTimer =>
    case Confirm =>
  }

  lemma {:induction false} RequestsBounded(active: Slot, both: bool, steps: seq<Step>, cfg: Config)
    requires Safe(cfg)
    ensures var s := After(Start(active, both), steps, cfg);
            Asked(s) && forall k :: 0 <= k < |s.asked| ==> s.asked[k] <= 1 + MAX_RETRY
  {
    hide Do;
    if steps != [] {
      var init := steps[..|steps| - 1];
      RequestsBounded(active, both, init, cfg);
      ActiveAlwaysLives(active, both, init, cfg);
      DoAsked(After(Start(active, both), init, cfg), steps[|steps| - 1], cfg);
    }
  }

  /** x is at most bound, and exactly bound while no key was late. */
  predicate Near(x: int, bound: int, fails: nat) {
    0 <= x <= bound && (fails == 0 ==> x == bound)
  }

  predicate SwitchedInTime(s: Rotation, sw: Switch, cfg: Config, fails: nat) {
    sw.key < |s.born| && Near(sw.at - s.born[sw.key], cfg.pre, fails)
  }

  /** The state after runs in which at most `fails` keys could not be generated when due. */
  ghost predicate OnTime(s: Rotation, cfg: Config, fails: nat)
    requires cfg.pre <= cfg.refresh
  {
    && Keyed(s, cfg)
    && (!s.announced ==> s.count < cfg.refresh - cfg.pre + fails)
    && (forall k :: 0 <= k < |s.used| ==> s.used[k] <= cfg.refresh + fails)
    && s.used[s.Key(s.active).value] == s.count
    && (s.announced ==>
          var k := s.Key(s.active.Opposite()).value;
          s.used[k] == 0 && Near(s.sends - s.born[k], s.count - (cfg.refresh - cfg.pre), fails))
    && (forall sw :: sw in s.switches ==> SwitchedInTime(s, sw, cfg, fails))
  }

  /** The state in the middle of a send, after the packet is encrypted and counted. */
  ghost predicate Counted(c: Rotation, cfg: Config, fails: nat)
    requires cfg.pre <= cfg.refresh
  {
    && Sized(c) && Lives(c, c.active)
    && 0 < c.count <= cfg.refresh + fails
    && (forall k :: 0 <= k < |c.used| ==> c.used[k] <= cfg.refresh + fails)
    && c.used[c.Key(c.active).value] == c.count
    && (forall sw :: sw in c.switches ==> SwitchedInTime(c, sw, cfg, fails))
  }

  ghost predicate Pending(c: Rotation, cfg: Config, fails: nat)
    requires cfg.pre <= cfg.refresh
  {
    c.announced ==>
      && Lives(c, c.active.Opposite())
      && c.Key(c.active.Opposite()).value < |c.used|
      && c.used[c.Key(c.active.Opposite()).value] == 0
      && Near(c.sends - c.born[c.Key(c.active.Opposite()).value],
              (if c.count < cfg.refresh then c.count else cfg.refresh) - (cfg.refresh - cfg.pre), fails)
  }

  lemma EncryptCounts(s: Rotation, cfg: Config, fails: nat)
    requires Safe(cfg) && OnTime(s, cfg, fails)
    ensures var c := Encrypt(s).(count := s.count + 1); Counted(c, cfg, fails) && Pending(c, cfg, fails)
  {
    var c := Encrypt(s).(count := s.count + 1);
    forall sw | sw in c.switches
      ensures SwitchedInTime(c, sw, cfg, fails)
    {
      assert SwitchedInTime(s, sw, cfg, fails);
    }
  }

  lemma AnnounceOnTime(c: Rotation, cfg: Config, fails: nat)
    requires Safe(cfg) && Counted(c, cfg, fails) && c.count >= cfg.refresh - cfg.pre
             && (fails == 0 ==> c.count == cfg.refresh - cfg.pre)
    ensures Counted(Announce(c), cfg, fails) && Pending(Announce(c), cfg, fails)
  {
    hide Announce;
    AnnounceFacts(c);
    AnnounceKeeps(c);
    var a := Announce(c);
    forall sw | sw in a.switches
      ensures SwitchedInTime(a, sw, cfg, fails)
    {
      assert SwitchedInTime(c, sw, cfg, fails);
    }
  }

  lemma DecommissionKeeps(b: Rotation, cfg: Config)
    ensures var d := Decommission(b, cfg);
            && d.count == b.count && d.active == b.active && d.announced == b.announced && d.sends == b.sends
            && d.born == b.born && d.used == b.used && d.switches == b.switches
            && d.Key(b.active) == b.Key(b.active)
            && (d.Key(b.active.Opposite()) == b.Key(b.active.Opposite()) || d.Key(b.active.Opposite()) == None)
  {
  }

  lemma SwitchOnTime(a: Rotation, cfg: Config, fails: nat)
    requires Safe(cfg) && Counted(a, cfg, fails) && Pending(a, cfg, fails)
    requires a.count >= cfg.refresh - cfg.pre <==> a.announced
    requires Keyed(Decommission(MaybeSwitch(a, cfg), cfg), cfg)
    ensures OnTime(Decommission(MaybeSwitch(a, cfg), cfg), cfg, fails)
  {
    hide Decommission;
    var b := MaybeSwitch(a, cfg);
    DecommissionKeeps(b, cfg);
    if a.count >= cfg.refresh {
      assert b.switches == a.switches + [Switch(a.Key(b.active).value, a.sends)];
    }
    var d := Decommission(b, cfg);
    forall sw | sw in d.switches
      ensures SwitchedInTime(d, sw, cfg, fails)
    {
      if sw in a.switches {
        assert SwitchedInTime(a, sw, cfg, fails);
      }
    }
  }

  /** The state in which a send decides whether a key is due. */
  function AtCheck(s: Rotation): Rotation {
    Encrypt(s).(count := s.count + 1)
  }

  /** A send that needs a new key and does not get one. */
  predicate Fails(s: Rotation, step: Step, cfg: Config)
    requires cfg.pre <= cfg.refresh
  {
    step == Send(false) && AnnounceDue(AtCheck(s), cfg)
  }

  lemma SendOnTime(s: Rotation, cfg: Config, fails: nat, generated: bool)
    requires Safe(cfg) && OnTime(s, cfg, fails)
    ensures OnTime(Do(s, Send(generated), cfg), cfg, if Fails(s, Send(generated), cfg) then fails + 1 else fails)
  {
    hide Announce, Encrypt, MaybeSwitch, Decommission, Counted, Pending, Keyed, OnTime;
    OnTimeKeyed(s, cfg, fails);
    DoKeyed(s, Send(generated), cfg);
    EncryptCounts(s, cfg, fails);
    EncryptKeeps(s, cfg, fails);
    var c := AtCheck(s);
    if !AnnounceDue(c, cfg) {
      SwitchOnTime(c, cfg, fails);
    } else if generated {
      AnnounceOnTime(c, cfg, fails);
      AnnounceKeeps(c);
      SwitchOnTime(Announce(c), cfg, fails);
    } else {
      FailedOnTime(c, cfg, fails);
    }
  }

  lemma OnTimeKeyed(s: Rotation, cfg: Config, fails: nat)
    requires Safe(cfg) && OnTime(s, cfg, fails)
    ensures Keyed(s, cfg)
  {
  }

  /** A key that is due but cannot be generated: nothing else happens in this send. */
  lemma FailedOnTime(c: Rotation, cfg: Config, fails: nat)
    requires Safe(cfg) && Counted(c, cfg, fails) && Keyed(c, cfg) && !c.announced
             && c.count <= cfg.refresh - cfg.pre + fails
    ensures OnTime(c, cfg, fails + 1)
  {
    hide Keyed;
    forall sw | sw in c.switches
      ensures SwitchedInTime(c, sw, cfg, fails + 1)
    {
      assert SwitchedInTime(c, sw, cfg, fails);
    }
  }

  lemma EncryptKeeps(s: Rotation, cfg: Config, fails: nat)
    requires Safe(cfg) && OnTime(s, cfg, fails)
    ensures Encrypt(s).count == s.count && Encrypt(s).announced == s.announced
    ensures s.announced ==> cfg.refresh - cfg.pre <= s.count < cfg.refresh
    ensures !s.announced ==> s.count < cfg.refresh - cfg.pre + fails
  {
  }

  /** How often in a run a key was due and the source of randomness did not deliver. */
  function Failures(start: Rotation, steps: seq<Step>, cfg: Config): nat
    requires cfg.pre <= cfg.refresh
  {
    if steps == [] then 0
    else
      var init := steps[..|steps| - 1];
      Failures(start, init, cfg) + (if Fails(After(start, init, cfg), steps[|steps| - 1], cfg) then 1 else 0)
  }

  lemma StartOnTime(active: Slot, both: bool, cfg: Config)
    requires Safe(cfg)
    ensures OnTime(Start(active, both), cfg, 0)
  {
  }

  lemma {:induction false} RunOnTime(active: Slot, both: bool, steps: seq<Step>, cfg: Config)
    requires Safe(cfg)
    ensures OnTime(After(Start(active, both), steps, cfg), cfg, Failures(Start(active, both), steps, cfg))
  {
    hide OnTime, Do, Start, AtCheck;
    if steps == [] {
      StartOnTime(active, both, cfg);
    } else {
      var n := |steps| - 1;
      RunOnTime(active, both, steps[..n], cfg);
      var s, fails := After(Start(active, both), steps[..n], cfg), Failures(Start(active, both), steps[..n], cfg);
      match steps[n]
      case Send(generated) => SendOnTime(s, cfg, fails, generated);
      case RetryTimer => OtherOnTime(s, steps[n], cfg, fails);
      case Confirm => OtherOnTime(s, steps[n], cfg, fails);
    }
  }

  lemma OtherOnTime(s: Rotation, step: Step, cfg: Config, fails: nat)
    requires Safe(cfg) && OnTime(s, cfg, fails) && !step.Send?
    ensures OnTime(Do(s, step, cfg), cfg, fails)
  {
    var t := Do(s, step, cfg);
    forall sw | sw in t.switches
      ensures SwitchedInTime(t, sw, cfg, fails)
    {
      assert SwitchedInTime(s, sw, cfg, fails);
    }
  }

  /**
   * In every run each switch goes to a key that was generated and announced at most the pre-announce
   * number of sends before, and exactly that many if no generation failed; no key encrypts more packets
   * than the refresh rate plus the number of failed generations.
   */
  lemma {:induction false} RotationOnTime(active: Slot, both: bool, steps: seq<Step>, cfg: Config)
    requires Safe(cfg)
    ensures var s := After(Start(active, both), steps, cfg);
            var fails := Failures(Start(active, both), steps, cfg);
            && (forall sw :: sw in s.switches ==>
                  && sw.key < |s.born| && s.born[sw.key] <= sw.at <= s.born[sw.key] + cfg.pre
                  && (fails == 0 ==> sw.at == s.born[sw.key] + cfg.pre))
            && (forall k :: 0 <= k < |s.used| ==> s.used[k] <= cfg.refresh + fails)
  {
    RunOnTime(active, both, steps, cfg);
    var s := After(Start(active, both), steps, cfg);
    forall sw | sw in s.switches
      ensures SwitchedInTime(s, sw, cfg, Failures(Start(active, both), steps, cfg))
    {
    }
  }

  /** A refresh rate of zero turns rotation off: the first key encrypts every packet. */
  lemma {:induction false} RotationOff(active: Slot, both: bool, steps: seq<Step>, cfg: Config)
    requires cfg.refresh == 0
    ensures var s := After(Start(active, both), steps, cfg);
            && s.active == active && s.Key(active) == Some(0) && s.switches == [] && |s.born| == (if both then 2 else 1)
            && |s.used| == |s.born| && s.used[0] == s.sends && !s.announced
  {
    if steps != [] {
      RotationOff(active, both, steps[..|steps| - 1], cfg);
    }
  }

  /**
   * The retry timer: while the announced key is not confirmed and retries are left, exactly that key goes
   * out once more and one retry is spent; otherwise nothing happens.
   */
  lemma RetryExact(s: Rotation, cfg: Config)
    requires Safe(cfg) && Keyed(s, cfg)
    ensures var t := Retry(s);
            if s.announced && !s.confirmed && s.retries > 0 then
              var k := s.Key(s.active.Opposite());
              && k.Some? && k.value < |s.asked|
              && t == s.(retries := s.retries - 1, asked := s.asked[k.value := s.asked[k.value] + 1])
            else t == s
  {
  }

  /** A confirmed key is not repeated, until another is announced. */
  lemma ConfirmStops(s: Rotation, cfg: Config)
    requires Safe(cfg)
    ensures var t := Do(s, Confirm, cfg); t == s.(confirmed := true) && Do(t, RetryTimer, cfg) == t
  {
  }

  /** From the first switch on the slot that is not active holds the old key, an announced key or none. */
  ghost predicate Retired(s: Rotation) {
    s.switches != [] && !s.announced && !s.decommission ==> s.Key(s.active.Opposite()).None?
  }

  lemma DoRetires(s: Rotation, step: Step, cfg: Config)
    requires Safe(cfg) && Keyed(s, cfg) && Retired(s)
    ensures Retired(Do(s, step, cfg))
  {
    hide Announce;
    if step.Send? {
      AnnounceKeeps(AtCheck(s));
    }
  }

  /** In every run the old key is cleared a pre-announce window after the switch, until the next announcement. */
  lemma {:induction false} OldKeyRetires(active: Slot, both: bool, steps: seq<Step>, cfg: Config)
    requires Safe(cfg)
    ensures var s := After(Start(active, both), steps, cfg);
            Retired(s) && (s.decommission ==> s.switchCount == s.count + 1 < cfg.pre)
  {
    hide Do;
    ActiveAlwaysLives(active, both, steps, cfg);
    if steps != [] {
      var init := steps[..|steps| - 1];
      OldKeyRetires(active, both, init, cfg);
      ActiveAlwaysLives(active, both, init, cfg);
      DoRetires(After(Start(active, both), init, cfg), steps[|steps| - 1], cfg);
    }
  }

  // ---- when the settings are not safe ----

  function Sends(n: nat): seq<Step> {
    seq(n, _ => Send(true))
  }

  function AfterSends(active: Slot, both: bool, n: nat, cfg: Config): Rotation
    requires cfg.pre <= cfg.refresh
  {
    After(Start(active, both), Sends(n), cfg)
  }

  lemma OneMoreSend(active: Slot, both: bool, n: nat, cfg: Config)
    requires cfg.pre <= cfg.refresh
    ensures AfterSends(active, both, n + 1, cfg) == Do(AfterSends(active, both, n, cfg), Send(true), cfg)
  {
    assert Sends(n + 1)[..n] == Sends(n);
  }

  /** The pre-announce window covers more than half of the refresh period. */
  predicate Overlaps(cfg: Config) {
    cfg.pre < cfg.refresh < 2 * cfg.pre
  }

  ghost predicate FirstPeriod(s: Rotation, active: Slot, n: nat, cfg: Config) {
    s.active == active && s.count == n < cfg.refresh && !s.decommission && (s.announced <==> n >= cfg.refresh - cfg.pre)
  }

  /** In the second period the slot announced into is the one that is cleared afterwards. */
  ghost predicate SecondPeriod(s: Rotation, active: Slot, c: nat, cfg: Config) {
    && s.active == active && s.count == c < cfg.refresh
    && (s.announced <==> c >= cfg.refresh - cfg.pre)
    && (if c + 1 < cfg.pre then s.decommission && s.switchCount == c + 1
        else !s.decommission && s.Key(active.Opposite()).None?)
  }

  lemma StepFirst(s: Rotation, active: Slot, n: nat, cfg: Config)
    requires Overlaps(cfg) && FirstPeriod(s, active, n, cfg)
    ensures var t := Do(s, Send(true), cfg);
            if n + 1 < cfg.refresh then FirstPeriod(t, active, n + 1, cfg)
            else SecondPeriod(t, active.Opposite(), 0, cfg)
  {
    hide Announce;
    AnnounceKeeps(Encrypt(s).(count := s.count + 1));
  }

  lemma StepSecond(s: Rotation, active: Slot, c: nat, cfg: Config)
    requires Overlaps(cfg) && SecondPeriod(s, active, c, cfg)
    ensures var t := Do(s, Send(true), cfg);
            if c + 1 < cfg.refresh then SecondPeriod(t, active, c + 1, cfg) else t.Key(t.active).None?
  {
    hide Announce;
    AnnounceKeeps(Encrypt(s).(count := s.count + 1));
  }

  lemma {:induction false} FirstRun(active: Slot, both: bool, n: nat, cfg: Config)
    requires Overlaps(cfg) && n < cfg.refresh
    ensures FirstPeriod(AfterSends(active, both, n, cfg), active, n, cfg)
  {
    hide Do;
    if n > 0 {
      FirstRun(active, both, n - 1, cfg);
      OneMoreSend(active, both, n - 1, cfg);
      StepFirst(AfterSends(active, both, n - 1, cfg), active, n - 1, cfg);
    } else {
      assert Sends(0) == [];
    }
  }

  lemma {:induction false} SecondRun(active: Slot, both: bool, c: nat, cfg: Config)
    requires Overlaps(cfg) && c < cfg.refresh
    ensures SecondPeriod(AfterSends(active, both, cfg.refresh + c, cfg), active.Opposite(), c, cfg)
  {
    hide Do, AfterSends, FirstPeriod, SecondPeriod;
    if c > 0 {
      SecondRun(active, both, c - 1, cfg);
      OneMoreSend(active, both, cfg.refresh + c - 1, cfg);
      StepSecond(AfterSends(active, both, cfg.refresh + c - 1, cfg), active.Opposite(), c - 1, cfg);
    } else {
      FirstRun(active, both, cfg.refresh - 1, cfg);
      OneMoreSend(active, both, cfg.refresh - 1, cfg);
      StepFirst(AfterSends(active, both, cfg.refresh - 1, cfg), active, cfg.refresh - 1, cfg);
    }
  }

  /** With overlapping windows the second switch goes to a slot that was already cleared. */
  lemma OverlapLosesKey(active: Slot, both: bool, cfg: Config)
    requires Overlaps(cfg)
    ensures var s := AfterSends(active, both, 2 * cfg.refresh, cfg); s.Key(s.active).None?
  {
    hide Do, AfterSends, SecondPeriod;
    SecondRun(active, both, cfg.refresh - 1, cfg);
    OneMoreSend(active, both, 2 * cfg.refresh - 1, cfg);
    StepSecond(AfterSends(active, both, 2 * cfg.refresh - 1, cfg), active.Opposite(), cfg.refresh - 1, cfg);
  }

  predicate HasKey(s: Rotation) {
    s.Key(s.active).Some?
  }

  /** The active slot holds a key in every run exactly when twice the pre-announce is at most the refresh rate. */
  lemma {:induction false} SafeExactly(active: Slot, both: bool, cfg: Config)
    requires 0 < cfg.refresh && cfg.pre < cfg.refresh
    ensures (forall steps: seq<Step> :: HasKey(After(Start(active, both), steps, cfg))) <==> 2 * cfg.pre <= cfg.refresh
  {
    if 2 * cfg.pre <= cfg.refresh {
      forall steps: seq<Step>
        ensures HasKey(After(Start(active, both), steps, cfg))
      {
        ActiveAlwaysLives(active, both, steps, cfg);
      }
    } else {
      OverlapLosesKey(active, both, cfg);
      assert !HasKey(After(Start(active, both), Sends(2 * cfg.refresh), cfg));
    }
  }

  /** Setup repairs a missing or oversized pre-announce, and lets one through that overlaps. */
  lemma EstablishSafe(refresh: nat, pre: nat)
    requires refresh > 0
    ensures Establish(refresh, pre).pre < refresh
    ensures pre == 0 || pre >= refresh ==> refresh - 1 <= 2 * Establish(refresh, pre).pre <= refresh
    ensures 0 < pre < refresh ==> Establish(refresh, pre).pre == pre
    ensures Safe(Establish(refresh, pre)) <==> pre == 0 || pre >= refresh || 2 * pre <= refresh
  {
  }
}

module KeyRotating {
  import opened Packets
  import opened RotationRuns

  /** asked counts how often each key went out. */
  ghost predicate Logged(requests: seq<nat>, asked: seq<nat>) {
    && (forall i :: 0 <= i < |requests| ==> requests[i] < |asked|)
    && (forall k :: 0 <= k < |asked| ==> multiset(requests)[k] == asked[k])
  }

  lemma LogRequest(requests: seq<nat>, asked: seq<nat>, k: nat)
    requires Logged(requests, asked) && k < |asked|
    ensures Logged(requests + [k], Bump(asked, Some(k)))
  {
    assert multiset(requests + [k]) == multiset(requests) + multiset{k};
  }

  lemma LogNewKey(requests: seq<nat>, asked: seq<nat>)
    requires Logged(requests, asked)
    ensures Logged(requests, asked + [0])
  {
    assert |asked| !in requests;
    assert |asked| !in multiset(requests);
  }

  class Rotator {
    const kmRefreshRate: nat
    const kmPreAnnounce: nat
    var kmPacketCount: nat
    var activeKey: Slot
    var kmAnnounced: bool
    var kmConfirmed: bool
    var kmRetryCount: nat
    var kmRetryKey: Slot
    var kmDecommission: bool
    var kmSwitchCount: nat
    var evenSEK: Option<nat>
    var oddSEK: Option<nat>
    var requests: seq<nat>
    ghost var view: Rotation

    ghost function Cfg(): Config {
      Config(kmRefreshRate, kmPreAnnounce)
    }

    ghost predicate Valid()
      reads this
    {
      && (kmRefreshRate > 0 ==> kmPreAnnounce <= kmRefreshRate)
      && view.count == kmPacketCount && view.active == activeKey
      && view.announced == kmAnnounced && view.confirmed == kmConfirmed
      && view.retries == kmRetryCount && view.retrySlot == kmRetryKey
      && view.decommission == kmDecommission && view.switchCount == kmSwitchCount
      && view.even == evenSEK && view.odd == oddSEK
      && |view.asked| == |view.born|
      && (evenSEK.Some? ==> evenSEK.value < |view.born|)
      && (oddSEK.Some? ==> oddSEK.value < |view.born|)
      && Logged(requests, view.asked)
    }

    constructor (refresh: nat, pre: nat, active: Slot, both: bool)
      ensures Valid() && view == Start(active, both) && Cfg() == Establish(refresh, pre) && requests == []
    {
      kmRefreshRate := refresh;
      kmPreAnnounce := if refresh > 0 && (pre == 0 || pre >= refresh) then refresh / 2 else pre;
      kmPacketCount, activeKey, kmAnnounced, kmConfirmed := 0, active, false, false;
      kmRetryCount, kmRetryKey, kmDecommission, kmSwitchCount := 0, active, false, 0;
      evenSEK := if active == Even then Some(0) else if both then Some(1) else None;
      oddSEK := if active == Odd then Some(0) else if both then Some(1) else None;
      requests := [];
      view := Start(active, both);
    }

    /** One encrypted send: the packet goes out under the active key, then the machine steps. */
    method SendEncrypted(generated: bool, newKey: nat) returns (key: Option<nat>)
      requires Valid() && newKey == |view.born|
      modifies this
      ensures Valid() && view == Do(old(view), Send(generated), Cfg()) && key == old(view.Key(view.active))
    {
      hide Logged;
      key := if activeKey == Even then evenSEK else oddSEK;
      view := Encrypt(view);
      if kmRefreshRate > 0 {
        CheckKeyRotation(generated, newKey);
      }
    }

    method CheckKeyRotation(generated: bool, newKey: nat)
      requires Valid() && kmRefreshRate > 0 && newKey == |view.born|
      modifies this
      ensures Valid() && view == Check(old(view), Cfg(), generated)
    {
      hide Announce, SwitchKey, Decommission, Logged;
      kmPacketCount := kmPacketCount + 1;
      view := view.(count := view.count + 1);
      ghost var c := view;
      if !kmAnnounced && kmPacketCount >= kmRefreshRate - kmPreAnnounce {
        if !generated {
          return;
        }
        AnnounceNext(newKey);
        AnnounceKeeps(c);
      }
      if kmPacketCount >= kmRefreshRate {
        SwitchSlot();
      }
      DecommissionOld();
    }

    method DecommissionOld()
      requires Valid()
      modifies this
      ensures Valid() && view == RotationRuns.Decommission(old(view), Cfg())
    {
      hide Logged;
      if kmDecommission {
        kmSwitchCount := kmSwitchCount + 1;
        view := view.(switchCount := view.switchCount + 1);
        if kmSwitchCount >= kmPreAnnounce {
          ClearSEK(activeKey.Opposite());
          kmDecommission := false;
          view := view.(decommission := false);
        }
      }
    }

    method AnnounceNext(newKey: nat)
      requires Valid() && newKey == |view.born|
      modifies this
      ensures Valid() && view == Announce(old(view))
    {
      hide Logged, Announce, Bump;
      AnnounceKeeps(view);
      AnnounceRequests(view);
      LogNewKey(requests, view.asked);
      LogRequest(requests, view.asked + [0], newKey);
      var nextKey := activeKey.Opposite();
      if nextKey == Even {
        evenSEK := Some(newKey);
      } else {
        oddSEK := Some(newKey);
      }
      kmAnnounced, kmConfirmed, kmRetryKey, kmRetryCount := true, false, nextKey, MAX_RETRY;
      requests := requests + [newKey];
      view := Announce(view);
    }

    method SwitchSlot()
      requires Valid()
      modifies this
      ensures Valid() && view == SwitchKey(old(view))
    {
      hide Logged;
      activeKey := activeKey.Opposite();
      kmPacketCount, kmAnnounced, kmDecommission, kmSwitchCount := 0, false, true, 0;
      view := SwitchKey(view);
    }

    method ClearSEK(slot: Slot)
      requires Valid()
      modifies this`evenSEK, this`oddSEK, this`view
      ensures Valid() && view == old(view).WithKey(slot, None)
    {
      hide Logged;
      if slot == Even {
        evenSEK := None;
      } else {
        oddSEK := None;
      }
      view := view.WithKey(slot, None);
    }

    /** The retry timer repeats the announced key until it is confirmed or ten retries are spent. */
    method RetryKMREQ()
      requires Valid()
      modifies this
      ensures Valid() && view == Do(old(view), RetryTimer, Cfg())
    {
      hide Logged;
      if !kmAnnounced || kmConfirmed || kmRetryCount <= 0 {
        return;
      }
      kmRetryCount := kmRetryCount - 1;
      view := Retry(view);
      var key := if kmRetryKey == Even then evenSEK else oddSEK;
      if key.Some? {
        LogRequest(requests, old(view).asked, key.value);
        requests := requests + [key.value];
      }
    }
  }
}
