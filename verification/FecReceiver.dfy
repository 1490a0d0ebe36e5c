/**
 * The row-only FEC receiver (internal/filter/fec.go, Rows == 1, no full reset): data and repair
 * packets arrive in any order and any number of times.
 */
module FecRows {
  import opened SeqNum
  import opened Packets
  import opened FecXor
  import opened FecSending

  /** The stream of source packets, by offset from the initial sequence number, and the row geometry. */
  datatype Stream = Stream(isn: int, f: int -> Source, cols: nat, n: nat) {
    ghost function RowParity(lo: int): Clip {
      Parity(f, lo, lo + cols, Span(lo, lo + cols), n)
    }
  }

  /** u is the one packet of its row that has not arrived. */
  ghost predicate Missing(st: Stream, lo: int, got: set<int>, u: int) {
    u in Span(lo, lo + st.cols) && got * Span(lo, lo + st.cols) == Span(lo, lo + st.cols) - {u}
  }

  ghost predicate Fits(st: Stream, u: int) {
    |st.f(u).payload| <= st.n
  }

  /** The accumulators of a row hold exactly what arrived of it. */
  ghost predicate RowCore(st: Stream, g: Group, lo: int, got: set<int>, made: set<int>) {
    var span := Span(lo, lo + st.cols);
    && g.base == Wrap(st.isn + lo) && g.collected == |got * span|
    && |g.clip.payload| == st.n
    && g.clip == Accumulated(st, lo, got, g.hasFEC)
    && RebuiltOnly(st, g.hasFEC, lo, got, made)
  }

  /** What was rebuilt of a row is what its repair packet left to rebuild. */
  ghost predicate RebuiltOnly(st: Stream, hasFEC: bool, lo: int, got: set<int>, made: set<int>) {
    && (made * Span(lo, lo + st.cols) != {} ==> hasFEC)
    && (forall u :: u in made * Span(lo, lo + st.cols) ==> Missing(st, lo, got, u))
  }

  /** A row with its repair packet and all but one member has had that member rebuilt, if it could be. */
  ghost predicate RowDone(st: Stream, g: Group, lo: int, got: set<int>, made: set<int>) {
    forall u :: g.hasFEC && Missing(st, lo, got, u) && Fits(st, u) ==> u in made
  }

  lemma RowFacts(st: Stream, g: Group, lo: int, got: set<int>, made: set<int>)
    requires RowCore(st, g, lo, got, made)
    ensures g.base == Wrap(st.isn + lo) && |g.clip.payload| == st.n
  {
  }

  /** The accumulated length of a row fits its 16-bit field, so counting it as a natural number loses nothing. */
  lemma LengthFits(st: Stream, g: Group, lo: int, got: set<int>, made: set<int>)
    requires RowCore(st, g, lo, got, made)
    ensures g.clip.length < 0x1_0000
  {
    hide Xor, Parity, Span, Wrap, RebuiltOnly;
    var span := Span(lo, lo + st.cols);
    ParityLength(st.f, lo, lo + st.cols, got, st.n);
    ParityLength(st.f, lo, lo + st.cols, span, st.n);
    if g.hasFEC {
      XorLength(Parity(st.f, lo, lo + st.cols, got, st.n), st.RowParity(lo));
    }
  }

  lemma EmptyRow(st: Stream, lo: int, got: set<int>, made: set<int>)
    requires got * Span(lo, lo + st.cols) == {} && made * Span(lo, lo + st.cols) == {}
    ensures RowCore(st, NewGroup(Wrap(st.isn + lo), st.n), lo, got, made)
    ensures RowDone(st, NewGroup(Wrap(st.isn + lo), st.n), lo, got, made)
  {
    hide Xor, Span, Parity, Zero;
    var span := Span(lo, lo + st.cols);
    forall u | lo <= u < lo + st.cols
      ensures u !in got
    {
      assert u in span;
    }
    ParityNone(st.f, lo, lo + st.cols, got, st.n);
  }

  lemma {:induction false} ParityNone(f: int -> Source, lo: int, hi: int, s: set<int>, n: nat)
    requires lo <= hi && forall u :: lo <= u < hi ==> u !in s
    ensures Parity(f, lo, hi, s, n) == Zero(n)
    decreases hi - lo
  {
    if lo < hi {
      ParityNone(f, lo, hi - 1, s, n);
    }
  }

  lemma {:induction false} OnlyMissing(st: Stream, lo: int, got: set<int>, x: int, u: int)
    requires Missing(st, lo, got, x) && u in Span(lo, lo + st.cols) && u !in got
    ensures u == x
  {
    hide Span;
    assert u in Span(lo, lo + st.cols) - {x} <==> u in got * Span(lo, lo + st.cols);
  }

  /** A row with a member neither received nor rebuilt has nothing rebuilt. */
  lemma {:induction false} NothingMade(st: Stream, g: Group, lo: int, got: set<int>, made: set<int>, u: int)
    requires RowCore(st, g, lo, got, made) && u in Span(lo, lo + st.cols) && u !in got && u !in made
    ensures made * Span(lo, lo + st.cols) == {}
  {
    hide Xor, ClipOf, Parity, Span, Missing;
    var rebuilt := made * Span(lo, lo + st.cols);
    if rebuilt != {} {
      var x :| x in rebuilt;
      OnlyMissing(st, lo, got, x, u);
      assert false;
    }
  }

  lemma OneMore(got: set<int>, span: set<int>, u: int)
    requires u in span && u !in got
    ensures (got + {u}) * span == got * span + {u} && |(got + {u}) * span| == |got * span| + 1
  {
    assert (got + {u}) * span == got * span + {u};
  }

  /** A data packet that was neither received nor rebuilt is clipped in; its row had nothing rebuilt yet. */
  lemma {:induction false} ClipNew(st: Stream, g: Group, lo: int, got: set<int>, made: set<int>, u: int)
    requires RowCore(st, g, lo, got, made) && u in Span(lo, lo + st.cols) && u !in got && u !in made
    ensures RowCore(st, g.(clip := Xor(g.clip, ClipOf(st.f(u), st.n)), collected := g.collected + 1),
                    lo, got + {u}, made)
    ensures made * Span(lo, lo + st.cols) == {}
  {
    hide RowCore, Xor, ClipOf, Accumulated, RebuiltOnly, Span, Wrap;
    RowParts(st, g, lo, got, made);
    NothingMade(st, g, lo, got, made, u);
    NothingRebuilt(st, g.hasFEC, lo, got + {u}, made);
    OneMore(got, Span(lo, lo + st.cols), u);
    ClipAdded(st, lo, got, got + {u}, u, g.clip, g.hasFEC);
    RowFrom(st, g.(clip := Xor(g.clip, ClipOf(st.f(u), st.n)), collected := g.collected + 1), lo, got + {u}, made);
  }

  lemma {:induction false} RowParts(st: Stream, g: Group, lo: int, got: set<int>, made: set<int>)
    requires RowCore(st, g, lo, got, made)
    ensures g.base == Wrap(st.isn + lo) && g.collected == |got * Span(lo, lo + st.cols)| && |g.clip.payload| == st.n
    ensures g.clip == Accumulated(st, lo, got, g.hasFEC)
  {
    hide Accumulated, RebuiltOnly, Span, Wrap;
  }

  lemma {:induction false} RowFrom(st: Stream, g: Group, lo: int, got: set<int>, made: set<int>)
    requires g.base == Wrap(st.isn + lo) && g.collected == |got * Span(lo, lo + st.cols)| && |g.clip.payload| == st.n
    requires g.clip == Accumulated(st, lo, got, g.hasFEC) && RebuiltOnly(st, g.hasFEC, lo, got, made)
    ensures RowCore(st, g, lo, got, made)
  {
    hide Accumulated, RebuiltOnly, Span, Wrap;
  }

  lemma {:induction false} NothingRebuilt(st: Stream, hasFEC: bool, lo: int, got: set<int>, made: set<int>)
    requires made * Span(lo, lo + st.cols) == {}
    ensures RebuiltOnly(st, hasFEC, lo, got, made)
  {
  }

  /** What an accumulator must hold after the packets in got, with or without the repair packet. */
  ghost function Accumulated(st: Stream, lo: int, got: set<int>, hasFEC: bool): Clip {
    var p := Parity(st.f, lo, lo + st.cols, got, st.n);
    if hasFEC then Xor(p, st.RowParity(lo)) else p
  }

  lemma ClipAdded(st: Stream, lo: int, got: set<int>, got': set<int>, u: int, clip: Clip, hasFEC: bool)
    requires lo <= u < lo + st.cols && u !in got && got' == got + {u} && clip == Accumulated(st, lo, got, hasFEC)
    ensures |clip.payload| == st.n
    ensures Xor(clip, ClipOf(st.f(u), st.n)) == Accumulated(st, lo, got', hasFEC)
  {
    hide Xor, ClipOf, Parity, Stream.RowParity;
    ParityAdd(st.f, lo, lo + st.cols, got, st.n, u);
    RowParityLength(st, lo);
    if hasFEC {
      XorSwap(Parity(st.f, lo, lo + st.cols, got, st.n), st.RowParity(lo), ClipOf(st.f(u), st.n));
    }
  }

  lemma RowParityLength(st: Stream, lo: int)
    ensures |st.RowParity(lo).payload| == st.n
  {
    hide Parity;
  }

  /** A packet of another row leaves this one alone. */
  lemma {:induction false} OtherRow(st: Stream, g: Group, lo: int, got: set<int>, made: set<int>, u: int)
    requires RowCore(st, g, lo, got, made) && u !in Span(lo, lo + st.cols)
    ensures RowCore(st, g, lo, got + {u}, made) && RowCore(st, g, lo, got, made + {u})
    ensures RowDone(st, g, lo, got, made) ==>
              RowDone(st, g, lo, got + {u}, made) && RowDone(st, g, lo, got, made + {u})
  {
    hide RowCore, Xor, Accumulated, Span, Wrap;
    RowParts(st, g, lo, got, made);
    SameRow(st, lo, got, made, u, g.hasFEC);
    OtherRebuilt(st, g, lo, got, made, u);
    RowFrom(st, g, lo, got + {u}, made);
    RowFrom(st, g, lo, got, made + {u});
  }

  lemma {:induction false} SameRow(st: Stream, lo: int, got: set<int>, made: set<int>, u: int, hasFEC: bool)
    requires u !in Span(lo, lo + st.cols)
    ensures (got + {u}) * Span(lo, lo + st.cols) == got * Span(lo, lo + st.cols)
    ensures (made + {u}) * Span(lo, lo + st.cols) == made * Span(lo, lo + st.cols)
    ensures Accumulated(st, lo, got + {u}, hasFEC) == Accumulated(st, lo, got, hasFEC)
    ensures forall x :: Missing(st, lo, got + {u}, x) <==> Missing(st, lo, got, x)
  {
    hide Xor, Parity, Span;
    var span := Span(lo, lo + st.cols);
    assert (got + {u}) * span == got * span && (made + {u}) * span == made * span;
    ParitySame(st.f, lo, lo + st.cols, got, got + {u}, st.n);
  }

  lemma {:induction false} OtherRebuilt(st: Stream, g: Group, lo: int, got: set<int>, made: set<int>, u: int)
    requires RowCore(st, g, lo, got, made) && u !in Span(lo, lo + st.cols)
    ensures RebuiltOnly(st, g.hasFEC, lo, got + {u}, made) && RebuiltOnly(st, g.hasFEC, lo, got, made + {u})
    ensures RowDone(st, g, lo, got, made) ==>
              RowDone(st, g, lo, got + {u}, made) && RowDone(st, g, lo, got, made + {u})
  {
    hide Xor, Accumulated, Span, Wrap, Missing;
    SameRow(st, lo, got, made, u, g.hasFEC);
  }

  /** The repair packet is clipped in once. */
  lemma {:induction false} ClipParity(st: Stream, g: Group, lo: int, got: set<int>, made: set<int>)
    requires RowCore(st, g, lo, got, made) && !g.hasFEC
    ensures RowCore(st, g.(hasFEC := true, clip := Xor(g.clip, st.RowParity(lo))), lo, got, made)
    ensures made * Span(lo, lo + st.cols) == {}
  {
    hide Xor, Parity, Span, Wrap, Missing;
    RowParityLength(st, lo);
    NotRebuiltYet(st, lo, got, made);
  }

  lemma {:induction false} NotRebuiltYet(st: Stream, lo: int, got: set<int>, made: set<int>)
    requires RebuiltOnly(st, false, lo, got, made)
    ensures made * Span(lo, lo + st.cols) == {}
    ensures RebuiltOnly(st, true, lo, got, made)
  {
    hide Span, Missing;
  }

  /** All but one member: there is exactly one missing. */
  lemma TheMissing(st: Stream, lo: int, got: set<int>) returns (u: int)
    requires st.cols > 0 && |got * Span(lo, lo + st.cols)| == st.cols - 1
    ensures Missing(st, lo, got, u)
    ensures forall x :: Missing(st, lo, got, x) ==> x == u
  {
    hide Span;
    var span := Span(lo, lo + st.cols);
    var rest := span - got * span;
    assert rest + got * span == span && rest !! got * span;
    assert |rest| == 1;
    u :| u in rest;
    assert |rest - {u}| == 0;
    assert rest == {u};
    forall x | Missing(st, lo, got, x)
      ensures x == u
    {
      assert x !in got * span;
    }
  }

  /** With the repair packet and all but one member, the accumulators are the missing member. */
  lemma OneMissing(st: Stream, g: Group, lo: int, got: set<int>, made: set<int>) returns (u: int)
    requires st.cols > 0 && st.n < 0x1_0000 && RowCore(st, g, lo, got, made) && g.hasFEC && g.collected == st.cols - 1
    requires forall x :: x in Span(lo, lo + st.cols) ==> |st.f(x).payload| < 0x1_0000
    ensures Missing(st, lo, got, u)
    ensures Restore(g.clip) == if Fits(st, u) then Some(st.f(u)) else None
    ensures forall x :: Missing(st, lo, got, x) ==> x == u
  {
    hide Xor, ClipOf, Parity, Restore, Span;
    var span := Span(lo, lo + st.cols);
    u := TheMissing(st, lo, got);
    ParitySame(st.f, lo, lo + st.cols, got, span - {u}, st.n);
    ParityMissing(st.f, lo, lo + st.cols, span, st.n, u);
    RestoreExact(st.f(u), st.n);
  }

  /** A row that is short of more than one member, or of none, or lacks its repair packet, owes nothing. */
  lemma NothingOwed(st: Stream, g: Group, lo: int, got: set<int>, made: set<int>)
    requires RowCore(st, g, lo, got, made) && !(g.hasFEC && g.collected == st.cols - 1)
    ensures RowDone(st, g, lo, got, made)
  {
    hide Span, Parity;
    var span := Span(lo, lo + st.cols);
    forall u | Missing(st, lo, got, u)
      ensures g.collected == st.cols - 1
    {
      assert |span - {u}| == st.cols - 1;
    }
  }
}

module FecReceiving {
  import FecLayout
  import opened SeqNum
  import opened Bits
  import opened Packets
  import opened FecXor
  import opened FecSending
  import opened FecRows

  const MAX_HISTORY := 10

  datatype Recovered = Recovered(seqNo: Num, src: Source)

  /** First offset of row r. */
  function RowStart(cols: nat, r: nat): nat {
    r * cols
  }

  lemma RowStep(cols: nat, r: nat)
    ensures RowStart(cols, r + 1) == RowStart(cols, r) + cols
  {
  }

  lemma {:induction false} RowSpan(cols: nat, r: nat, j: nat)
    ensures RowStart(cols, r + j) == RowStart(cols, r) + RowStart(cols, j)
  {
    assert (r + j) * cols == r * cols + j * cols;
  }

  lemma RowMono(cols: nat, i: nat, j: nat)
    requires i <= j
    ensures RowStart(cols, i) <= RowStart(cols, j)
  {
    assert j * cols == i * cols + (j - i) * cols;
  }

  /** The row of an offset within the window. */
  lemma RowOf(cols: nat, off: nat, q: nat)
    requires cols > 0 && q == off / cols
    ensures RowStart(cols, q) <= off < RowStart(cols, q) + cols
  {
    assert off == q * cols + off % cols;
  }

  /**
   * The receiver's state: the window of rows (front is the row number of groups[0]) and the marked
   * numbers, with the offsets received as data, the offsets rebuilt, the latter in order, and the
   * rows whose repair packet was taken.
   */
  datatype Window = Window(
    front: nat,
    groups: seq<Group>,
    cells: set<Num>,
    got: set<int>,
    made: set<int>,
    log: seq<int>,
    repaired: set<nat>)
  {
    function Lo(cols: nat, j: nat): int {
      RowStart(cols, front + j)
    }

    function Start(cols: nat): int {
      RowStart(cols, front)
    }

    function End(cols: nat): int {
      RowStart(cols, front + |groups|)
    }
  }

  ghost predicate Shape(st: Stream) {
    st.cols >= 2 && st.n < 0x1_0000 && st.cols * 20 < HALF && forall u :: |st.f(u).payload| < 0x1_0000
  }

  /** Wire numbers of the offsets from lo on that are in s. */
  ghost function Marks(st: Stream, s: set<int>, lo: int): set<Num> {
    set u | u in s && u >= lo :: Wrap(st.isn + u)
  }

  ghost predicate RowsOk(st: Stream, w: Window) {
    && (forall j :: 0 <= j < |w.groups| ==> RowCore(st, w.groups[j], w.Lo(st.cols, j), w.got, w.made))
    && (forall j :: 0 <= j < |w.groups| ==> RowDone(st, w.groups[j], w.Lo(st.cols, j), w.got, w.made))
  }

  ghost predicate CellsOk(st: Stream, w: Window) {
    && w.cells == Marks(st, w.got + w.made, w.Start(st.cols))
    && (forall u :: u in w.got + w.made ==> u < w.End(st.cols))
  }

  /** Each rebuilt packet was rebuilt once. */
  ghost predicate LogOk(w: Window) {
    && (forall u :: u in w.log <==> u in w.made)
    && (forall i, j :: 0 <= i < j < |w.log| ==> w.log[i] != w.log[j])
  }

  /** A row has its repair packet exactly if that was taken, and only packets that fit were rebuilt. */
  ghost predicate RepairsOk(st: Stream, w: Window) {
    && (forall j :: 0 <= j < |w.groups| ==> (w.groups[j].hasFEC <==> HasRepair(w, j)))
    && (forall r :: r in w.repaired ==> r < w.front + |w.groups|)
    && (forall u :: u in w.made ==> Fits(st, u))
  }

  ghost predicate HasRepair(w: Window, j: nat) {
    w.front + j in w.repaired
  }

  ghost predicate Inv(st: Stream, w: Window) {
    Shape(st) && 1 <= |w.groups| <= MAX_HISTORY && RowsOk(st, w) && CellsOk(st, w) && LogOk(w) && RepairsOk(st, w)
  }

  /** Offsets the 31-bit order can place and that do not force a full reset. */
  ghost predicate InReach(st: Stream, w: Window, u: int) {
    w.Start(st.cols) - HALF < u < w.Start(st.cols) + RowStart(st.cols, MAX_HISTORY)
  }

  lemma Reach(st: Stream, w: Window, u: int)
    requires Shape(st) && 1 <= |w.groups| <= MAX_HISTORY
    requires InReach(st, w, u) || w.Start(st.cols) <= u < w.End(st.cols)
    ensures -HALF < u - w.Start(st.cols) < HALF
    ensures Distance(Wrap(st.isn + w.Start(st.cols)), Wrap(st.isn + u)) == u - w.Start(st.cols)
  {
    RowSpan(st.cols, w.front, |w.groups|);
    RowMono(st.cols, |w.groups|, MAX_HISTORY);
    assert RowStart(st.cols, MAX_HISTORY) == st.cols * 10;
    WireOrderIsTrueOrder(st.isn + w.Start(st.cols), st.isn + u);
  }

  /** Within the window a number is marked exactly if its packet was received or rebuilt. */
  lemma MarkedExact(st: Stream, w: Window, u: int)
    requires Inv(st, w) && (InReach(st, w, u) || u < w.End(st.cols)) && u >= w.Start(st.cols)
    ensures Wrap(st.isn + u) in w.cells <==> u in w.got + w.made
  {
    hide Wrap, Distance, RowStart, RowsOk;
    if Wrap(st.isn + u) in w.cells {
      var v :| v in w.got + w.made && v >= w.Start(st.cols) && Wrap(st.isn + v) == Wrap(st.isn + u);
      Reach(st, w, u);
      Reach(st, w, v);
    }
  }

  // ---- window moves ----

  function Clean(cells: set<Num>, newBase: Num): set<Num> {
    set s | s in cells && Distance(newBase, s) >= 0
  }

  ghost function Advanced(st: Stream, w: Window): Window
    requires |w.groups| > 1
  {
    w.(front := w.front + 1, groups := w.groups[1..], cells := Clean(w.cells, w.groups[1].base))
  }

  /** Dropping the oldest row and forgetting its cells keeps everything else. */
  lemma AdvanceKeeps(st: Stream, w: Window)
    requires Inv(st, w) && |w.groups| > 1
    ensures Inv(st, Advanced(st, w)) && Advanced(st, w).End(st.cols) == w.End(st.cols)
    ensures w.groups[1].base == Wrap(st.isn + Advanced(st, w).Start(st.cols))
  {
    hide Wrap, Distance, RowStart, RowCore, RowDone, Shape, LogOk, Clean, Marks, RepairsOk;
    var w' := Advanced(st, w);
    AdvanceLog(st, w);
    AdvanceRepairs(st, w);
    RowFacts(st, w.groups[1], w.Lo(st.cols, 1), w.got, w.made);
    AdvanceCells(st, w);
    forall j | 0 <= j < |w'.groups|
      ensures RowCore(st, w'.groups[j], w'.Lo(st.cols, j), w.got, w.made)
      ensures RowDone(st, w'.groups[j], w'.Lo(st.cols, j), w.got, w.made)
    {
      assert w'.groups[j] == w.groups[j + 1] && w'.Lo(st.cols, j) == w.Lo(st.cols, j + 1);
    }
  }

  lemma AdvanceRepairs(st: Stream, w: Window)
    requires RepairsOk(st, w) && |w.groups| > 1
    ensures RepairsOk(st, Advanced(st, w))
  {
    hide Clean, Fits;
    var w' := Advanced(st, w);
    forall j | 0 <= j < |w'.groups|
      ensures w'.groups[j].hasFEC <==> HasRepair(w', j)
    {
      assert w'.groups[j] == w.groups[j + 1] && (HasRepair(w', j) <==> HasRepair(w, j + 1));
    }
  }

  lemma AdvanceLog(st: Stream, w: Window)
    requires LogOk(w) && |w.groups| > 1
    ensures LogOk(Advanced(st, w))
  {
  }

  lemma AdvanceCells(st: Stream, w: Window)
    requires Inv(st, w) && |w.groups| > 1 && w.groups[1].base == Wrap(st.isn + RowStart(st.cols, w.front + 1))
    ensures Clean(w.cells, w.groups[1].base) == Marks(st, w.got + w.made, RowStart(st.cols, w.front + 1))
  {
    hide Wrap, Distance, RowStart, RowsOk, RowDone, RowCore;
    var lo := RowStart(st.cols, w.front + 1);
    RowStep(st.cols, w.front);
    forall u | u in w.got + w.made && u >= w.Start(st.cols)
      ensures Distance(w.groups[1].base, Wrap(st.isn + u)) >= 0 <==> u >= lo
    {
      Reach(st, w, u);
      WireOrderIsTrueOrder(st.isn + lo, st.isn + u);
    }
    MarksFilter(st, w.got + w.made, w.Start(st.cols), lo, w.groups[1].base);
  }

  lemma MarksFilter(st: Stream, s: set<int>, lo: int, lo': int, base: Num)
    requires lo <= lo' && forall u :: u in s && u >= lo ==> (Distance(base, Wrap(st.isn + u)) >= 0 <==> u >= lo')
    ensures Clean(Marks(st, s, lo), base) == Marks(st, s, lo')
  {
    hide Wrap, Distance;
    forall m | m in Marks(st, s, lo')
      ensures m in Clean(Marks(st, s, lo), base)
    {
      var u :| u in s && u >= lo' && m == Wrap(st.isn + u);
      assert u >= lo;
    }
  }

  ghost function Extended(st: Stream, w: Window): Window {
    w.(groups := w.groups + [NewGroup(Wrap(st.isn + w.End(st.cols)), st.n)])
  }

  /** A new row past the last is empty. */
  lemma ExtendKeeps(st: Stream, w: Window)
    requires Inv(st, w) && |w.groups| < MAX_HISTORY
    ensures Inv(st, Extended(st, w))
  {
    hide Wrap, RowStart, RowCore, RowDone, Span, RepairsOk;
    RowStep(st.cols, w.front + |w.groups|);
    EmptyRow(st, w.End(st.cols), w.got, w.made);
    ExtendRepairs(st, w);
  }

  lemma ExtendRepairs(st: Stream, w: Window)
    requires RepairsOk(st, w)
    ensures RepairsOk(st, Extended(st, w))
  {
    hide Wrap, RowStart, Fits;
    var w' := Extended(st, w);
    assert !HasRepair(w', |w.groups|);
    assert forall j :: 0 <= j < |w.groups| ==> (HasRepair(w', j) <==> HasRepair(w, j));
  }

  // ---- packets ----

  /** Row j after group g replaced its accumulators. */
  ghost predicate RowReady(st: Stream, w: Window, j: nat) {
    && Shape(st) && 1 <= |w.groups| <= MAX_HISTORY && j < |w.groups| && CellsOk(st, w) && LogOk(w) && RepairsOk(st, w)
    && (forall i :: 0 <= i < |w.groups| ==> RowCore(st, w.groups[i], w.Lo(st.cols, i), w.got, w.made))
    && (forall i :: 0 <= i < |w.groups| && i != j ==> RowDone(st, w.groups[i], w.Lo(st.cols, i), w.got, w.made))
    && w.made * Span(w.Lo(st.cols, j), w.Lo(st.cols, j) + st.cols) == {}
  }

  ghost function Stored(st: Stream, w: Window, j: nat, u: int): Window
    requires j < |w.groups| && |w.groups[j].clip.payload| == st.n
  {
    var g := w.groups[j];
    var g' := g.(clip := Xor(g.clip, ClipOf(st.f(u), st.n)), collected := g.collected + 1);
    w.(groups := w.groups[j := g'], cells := w.cells + {Wrap(st.isn + u)}, got := w.got + {u})
  }

  /** A new data packet marks its cell and joins its row. */
  lemma StoreKeeps(st: Stream, w: Window, j: nat, u: int)
    requires Inv(st, w) && j < |w.groups| && u in Span(w.Lo(st.cols, j), w.Lo(st.cols, j) + st.cols)
    requires u !in w.got + w.made
    ensures |w.groups[j].clip.payload| == st.n && RowReady(st, Stored(st, w, j, u), j)
  {
    hide Wrap, RowStart, Xor, ClipOf, Span, Shape, LogOk, RowCore, RowDone, CellsOk, RepairsOk;
    RowFacts(st, w.groups[j], w.Lo(st.cols, j), w.got, w.made);
    StoredRepairs(st, w, j, u);
    ClipNew(st, w.groups[j], w.Lo(st.cols, j), w.got, w.made, u);
    InRow(st, w, j, u);
    StoredLog(st, w, j, u);
    CellsAdd(st, w, Stored(st, w, j, u), u);
    OthersKeep(st, w, j, u);
  }

  lemma StoredRepairs(st: Stream, w: Window, j: nat, u: int)
    requires RepairsOk(st, w) && j < |w.groups| && |w.groups[j].clip.payload| == st.n
    ensures RepairsOk(st, Stored(st, w, j, u))
  {
    hide Xor, ClipOf, Wrap, Fits;
    assert forall i :: 0 <= i < |w.groups| ==> (HasRepair(Stored(st, w, j, u), i) <==> HasRepair(w, i));
  }

  lemma StoredLog(st: Stream, w: Window, j: nat, u: int)
    requires LogOk(w) && j < |w.groups| && |w.groups[j].clip.payload| == st.n
    ensures LogOk(Stored(st, w, j, u))
  {
  }

  lemma CellsAdd(st: Stream, w: Window, w': Window, u: int)
    requires CellsOk(st, w) && w.Start(st.cols) <= u < w.End(st.cols)
    requires w'.front == w.front && |w'.groups| == |w.groups| && w'.cells == w.cells + {Wrap(st.isn + u)}
    requires w'.got + w'.made == w.got + w.made + {u}
    ensures CellsOk(st, w')
  {
    hide Wrap, Marks, RowStart;
    MarksAdd(st, w.got + w.made, w.Start(st.cols), u);
  }

  lemma MarksAdd(st: Stream, s: set<int>, lo: int, u: int)
    requires u >= lo
    ensures Marks(st, s + {u}, lo) == Marks(st, s, lo) + {Wrap(st.isn + u)}
  {
    hide Wrap;
  }

  /** A packet of row j, received or rebuilt, leaves the other rows as they are. */
  lemma OthersKeep(st: Stream, w: Window, j: nat, u: int)
    requires j < |w.groups| && u in Span(w.Lo(st.cols, j), w.Lo(st.cols, j) + st.cols)
    requires forall i :: 0 <= i < |w.groups| && i != j ==>
               RowCore(st, w.groups[i], w.Lo(st.cols, i), w.got, w.made)
                 && RowDone(st, w.groups[i], w.Lo(st.cols, i), w.got, w.made)
    ensures forall i :: 0 <= i < |w.groups| && i != j ==>
              && RowCore(st, w.groups[i], w.Lo(st.cols, i), w.got + {u}, w.made)
              && RowDone(st, w.groups[i], w.Lo(st.cols, i), w.got + {u}, w.made)
              && RowCore(st, w.groups[i], w.Lo(st.cols, i), w.got, w.made + {u})
              && RowDone(st, w.groups[i], w.Lo(st.cols, i), w.got, w.made + {u})
  {
    hide RowCore, RowDone, Span, RowStart;
    forall i | 0 <= i < |w.groups| && i != j
      ensures && RowCore(st, w.groups[i], w.Lo(st.cols, i), w.got + {u}, w.made)
              && RowDone(st, w.groups[i], w.Lo(st.cols, i), w.got + {u}, w.made)
              && RowCore(st, w.groups[i], w.Lo(st.cols, i), w.got, w.made + {u})
              && RowDone(st, w.groups[i], w.Lo(st.cols, i), w.got, w.made + {u})
    {
      RowsDisjoint(st, w, j, i, u);
      OtherRow(st, w.groups[i], w.Lo(st.cols, i), w.got, w.made, u);
    }
  }

  lemma InRow(st: Stream, w: Window, j: nat, u: int)
    requires j < |w.groups| && u in Span(w.Lo(st.cols, j), w.Lo(st.cols, j) + st.cols)
    ensures w.Start(st.cols) <= u < w.End(st.cols)
  {
    RowMono(st.cols, w.front, w.front + j);
    RowStep(st.cols, w.front + j);
    RowMono(st.cols, w.front + j + 1, w.front + |w.groups|);
  }

  lemma RowsDisjoint(st: Stream, w: Window, j: nat, i: nat, u: int)
    requires i != j && u in Span(w.Lo(st.cols, j), w.Lo(st.cols, j) + st.cols)
    ensures u !in Span(w.Lo(st.cols, i), w.Lo(st.cols, i) + st.cols)
  {
    hide Span;
    RowStep(st.cols, w.front + j);
    RowStep(st.cols, w.front + i);
    if i < j {
      RowMono(st.cols, w.front + i + 1, w.front + j);
    } else {
      RowMono(st.cols, w.front + j + 1, w.front + i);
    }
  }

  ghost function Repaired(st: Stream, w: Window, j: nat): Window
    requires j < |w.groups| && |w.groups[j].clip.payload| == st.n
  {
    var g := w.groups[j];
    w.(groups := w.groups[j := g.(hasFEC := true, clip := Xor(g.clip, st.RowParity(w.Lo(st.cols, j))))],
       repaired := w.repaired + {w.front + j})
  }

  lemma RepairKeeps(st: Stream, w: Window, j: nat)
    requires Inv(st, w) && j < |w.groups| && !w.groups[j].hasFEC
    ensures |w.groups[j].clip.payload| == st.n && RowReady(st, Repaired(st, w, j), j)
  {
    hide Wrap, RowStart, Xor, Span, Parity, RowCore, RowDone, Shape, LogOk, CellsOk, RepairsOk;
    RowFacts(st, w.groups[j], w.Lo(st.cols, j), w.got, w.made);
    RepairCells(st, w, j);
    RepairTaken(st, w, j);
    ClipParity(st, w.groups[j], w.Lo(st.cols, j), w.got, w.made);
  }

  lemma RepairTaken(st: Stream, w: Window, j: nat)
    requires RepairsOk(st, w) && j < |w.groups| && |w.groups[j].clip.payload| == st.n
    ensures RepairsOk(st, Repaired(st, w, j))
  {
    hide Xor, RowStart, Fits;
    var w' := Repaired(st, w, j);
    assert forall i :: 0 <= i < |w.groups| ==> (HasRepair(w', i) <==> HasRepair(w, i) || i == j);
  }

  lemma RepairCells(st: Stream, w: Window, j: nat)
    requires CellsOk(st, w) && LogOk(w) && j < |w.groups| && |w.groups[j].clip.payload| == st.n
    ensures CellsOk(st, Repaired(st, w, j)) && LogOk(Repaired(st, w, j))
  {
  }

  ghost function Rebuilt(st: Stream, w: Window, u: int): Window {
    w.(cells := w.cells + {Wrap(st.isn + u)}, made := w.made + {u}, log := w.log + [u])
  }

  /** A row that is ready and complete but for one gives that one back, and is then done. */
  lemma RebuildKeeps(st: Stream, w: Window, j: nat) returns (u: int)
    requires RowReady(st, w, j) && w.groups[j].hasFEC && w.groups[j].collected == st.cols - 1
    ensures Missing(st, w.Lo(st.cols, j), w.got, u) && w.Start(st.cols) <= u < w.End(st.cols)
    ensures forall x :: x in Span(w.Lo(st.cols, j), w.Lo(st.cols, j) + st.cols) ==> (x in w.got + w.made <==> x != u)
    ensures Restore(w.groups[j].clip) == if Fits(st, u) then Some(st.f(u)) else None
    ensures Inv(st, if Fits(st, u) then Rebuilt(st, w, u) else w)
  {
    hide Wrap, RowStart, Xor, Span, Parity, Restore;
    var lo := w.Lo(st.cols, j);
    u := OneMissing(st, w.groups[j], lo, w.got, w.made);
    InRow(st, w, j, u);
    forall x | x in Span(lo, lo + st.cols)
      ensures x in w.got + w.made <==> x != u
    {
      assert x in w.got <==> x in w.got * Span(lo, lo + st.cols);
      assert x in w.made <==> x in w.made * Span(lo, lo + st.cols);
    }
    if Fits(st, u) {
      RebuiltOk(st, w, j, u);
    }
  }

  lemma RebuiltOk(st: Stream, w: Window, j: nat, u: int)
    requires RowReady(st, w, j) && w.groups[j].hasFEC && Missing(st, w.Lo(st.cols, j), w.got, u)
    requires forall x :: Missing(st, w.Lo(st.cols, j), w.got, x) ==> x == u
    requires Fits(st, u)
    ensures Inv(st, Rebuilt(st, w, u))
  {
    hide Wrap, RowStart, Span, Shape, LogOk, RowCore, RowDone, CellsOk, RepairsOk;
    RebuiltRepairs(st, w, u);
    InRow(st, w, j, u);
    RebuiltRow(st, w.groups[j], w.Lo(st.cols, j), w.got, w.made, u);
    CellsAdd(st, w, Rebuilt(st, w, u), u);
    LogAdd(w, Rebuilt(st, w, u), u);
    OthersKeep(st, w, j, u);
  }

  lemma RebuiltRepairs(st: Stream, w: Window, u: int)
    requires RepairsOk(st, w) && Fits(st, u)
    ensures RepairsOk(st, Rebuilt(st, w, u))
  {
    hide Wrap, Fits;
    assert forall i: nat :: HasRepair(Rebuilt(st, w, u), i) <==> HasRepair(w, i);
  }

  lemma LogAdd(w: Window, w': Window, u: int)
    requires LogOk(w) && u !in w.made && w'.made == w.made + {u} && w'.log == w.log + [u]
    ensures LogOk(w')
  {
  }

  lemma {:induction false} MissingInSpan(st: Stream, lo: int, got: set<int>, u: int)
    requires Missing(st, lo, got, u)
    ensures u in Span(lo, lo + st.cols)
  {
  }

  lemma {:induction false} RebuiltRow(st: Stream, g: Group, lo: int, got: set<int>, made: set<int>, u: int)
    requires RowCore(st, g, lo, got, made) && g.hasFEC && Missing(st, lo, got, u) && made * Span(lo, lo + st.cols) == {}
    requires forall x :: Missing(st, lo, got, x) ==> x == u
    ensures RowCore(st, g, lo, got, made + {u}) && RowDone(st, g, lo, got, made + {u}) && u !in made
  {
    hide Xor, Parity, Span, Wrap, Missing, Fits;
    var span := Span(lo, lo + st.cols);
    MissingInSpan(st, lo, got, u);
    assert u in made ==> u in made * span;
    assert (made + {u}) * span == {u};
  }

  /** A row that is ready and not complete but for one is done as it is. */
  lemma ReadyIsDone(st: Stream, w: Window, j: nat)
    requires RowReady(st, w, j) && !(w.groups[j].hasFEC && w.groups[j].collected == st.cols - 1)
    ensures Inv(st, w)
  {
    hide Wrap, RowStart, Span;
    NothingOwed(st, w.groups[j], w.Lo(st.cols, j), w.got, w.made);
    hide RowCore, RowDone;
  }

  /** The window a receiver starts with: two empty rows. */
  ghost function Fresh(st: Stream): Window {
    Window(0, [NewGroup(Wrap(st.isn), st.n), NewGroup(Wrap(st.isn + st.cols), st.n)], {}, {}, {}, [], {})
  }

  lemma InitInv(st: Stream)
    requires Shape(st)
    ensures Inv(st, Fresh(st)) && Fresh(st).Start(st.cols) == 0
  {
    hide Wrap, Span, RowCore, RowDone;
    var groups := [NewGroup(Wrap(st.isn), st.n), NewGroup(Wrap(st.isn + st.cols), st.n)];
    EmptyRow(st, 0, {}, {});
    EmptyRow(st, st.cols, {}, {});
    forall j | 0 <= j < |groups|
      ensures RowStart(st.cols, j) == (if j == 0 then 0 else st.cols)
      ensures RowCore(st, groups[j], RowStart(st.cols, j), {}, {})
              && RowDone(st, groups[j], RowStart(st.cols, j), {}, {})
    {
      assert j == 0 || j == 1;
    }
  }

  ghost predicate Marked(st: Stream, cells: set<Num>, u: int) {
    Wrap(st.isn + u) in cells
  }

  // ---- what each arrival does to the window ----

  ghost predicate SameHistory(w: Window, d: Window) {
    d.got == w.got && d.made == w.made && d.log == w.log && d.repaired == w.repaired
  }

  /** checkLargeDrop on a packet of row q: rows leave the front until q is at most one ahead, or one row is left. */
  ghost function Dropped(st: Stream, w: Window, q: nat): Window
    decreases |w.groups|
  {
    if q >= w.front + 2 && |w.groups| > 1 then Dropped(st, Advanced(st, w), q) else w
  }

  lemma {:induction false} DroppedKeeps(st: Stream, w: Window, q: nat)
    requires Inv(st, w)
    ensures var d := Dropped(st, w, q);
            Inv(st, d) && SameHistory(w, d) && w.front <= d.front && d.front + |d.groups| == w.front + |w.groups|
    decreases |w.groups|
  {
    hide Inv;
    if q >= w.front + 2 && |w.groups| > 1 {
      AdvanceKeeps(st, w);
      DroppedKeeps(st, Advanced(st, w), q);
    }
  }

  /** The exact front after a drop. */
  lemma {:induction false} DroppedFront(st: Stream, w: Window, q: nat)
    requires |w.groups| >= 1
    ensures var last := w.front + |w.groups| - 1;
            Dropped(st, w, q).front == if q <= w.front + 1 then w.front else if q - 1 <= last then q - 1 else last
    decreases |w.groups|
  {
    if q >= w.front + 2 && |w.groups| > 1 {
      DroppedFront(st, Advanced(st, w), q);
    }
  }

  /** getRowGroupIndex for row q: rows are added until q has one. */
  ghost function Reached(st: Stream, w: Window, q: nat): Window
    decreases q - (w.front + |w.groups|)
  {
    if q >= w.front + |w.groups| then Reached(st, Extended(st, w), q) else w
  }

  /** Adding rows keeps the ones there are. */
  lemma {:induction false} ReachedKeeps(st: Stream, w: Window, q: nat)
    requires Inv(st, w) && w.front <= q < w.front + MAX_HISTORY
    ensures var e := Reached(st, w, q);
            Inv(st, e) && SameHistory(w, e) && e.front == w.front && q < e.front + |e.groups| && w.groups <= e.groups
    decreases q - (w.front + |w.groups|)
  {
    hide Inv;
    if q >= w.front + |w.groups| {
      ExtendKeeps(st, w);
      ReachedKeeps(st, Extended(st, w), q);
    }
  }

  /** The packet a row with all members but one lacks. */
  ghost function Lost(st: Stream, lo: int, got: set<int>): int
    requires exists u :: Missing(st, lo, got, u)
  {
    var u :| Missing(st, lo, got, u);
    u
  }

  /** Row j gives its missing packet back if it has its repair, all members but one, and the packet fits. */
  ghost function TryRebuilt(st: Stream, w: Window, j: nat): Window
    requires j < |w.groups|
  {
    if w.groups[j].hasFEC && w.groups[j].collected == st.cols - 1
      && (exists u :: Missing(st, w.Lo(st.cols, j), w.got, u)) then
      var u := Lost(st, w.Lo(st.cols, j), w.got);
      if Fits(st, u) then Rebuilt(st, w, u) else w
    else w
  }

  lemma TryKeeps(st: Stream, w: Window, j: nat)
    requires RowReady(st, w, j)
    ensures Inv(st, TryRebuilt(st, w, j))
  {
    hide Wrap, RowStart, Span, Inv, Missing, Restore, Fits;
    if w.groups[j].hasFEC && w.groups[j].collected == st.cols - 1 {
      var u := RebuildKeeps(st, w, j);
      MissingUnique(st, w.Lo(st.cols, j), w.got, u, Lost(st, w.Lo(st.cols, j), w.got));
    } else {
      ReadyIsDone(st, w, j);
    }
  }

  lemma MissingUnique(st: Stream, lo: int, got: set<int>, u: int, x: int)
    requires Missing(st, lo, got, u) && Missing(st, lo, got, x)
    ensures u == x
  {
    hide Span;
    var span := Span(lo, lo + st.cols);
    assert u !in span - {u} && (u in span - {x} <==> u != x);
  }

  ghost function Fed(st: Stream, w: Window, j: nat, u: int): Window
    requires j < |w.groups| && |w.groups[j].clip.payload| == st.n
  {
    TryRebuilt(st, Stored(st, w, j, u), j)
  }

  ghost function Mended(st: Stream, w: Window, j: nat): Window
    requires j < |w.groups| && |w.groups[j].clip.payload| == st.n
  {
    if w.groups[j].hasFEC then w else TryRebuilt(st, Repaired(st, w, j), j)
  }

  /** The row of a nonnegative offset. */
  ghost function RowNo(cols: nat, u: nat): nat
    requires cols > 0
  {
    u / cols
  }

  /** The window in which a packet of row q, not before the window, is handled. */
  ghost function Opened(st: Stream, w: Window, q: nat): Window {
    Reached(st, Dropped(st, w, q), q)
  }

  /** A packet of row q within reach finds its row. */
  lemma OpenedKeeps(st: Stream, w: Window, q: nat)
    requires Inv(st, w) && w.front <= q < w.front + MAX_HISTORY
    ensures var e := Opened(st, w, q);
            && Inv(st, e) && SameHistory(w, e) && w.front <= e.front <= q < e.front + |e.groups|
            && |e.groups[q - e.front].clip.payload| == st.n
            && e.Lo(st.cols, q - e.front) == RowStart(st.cols, q)
  {
    hide Dropped, Reached, RowStart, RowCore, RowDone;
    DroppedKeeps(st, w, q);
    DroppedFront(st, w, q);
    ReachedKeeps(st, Dropped(st, w, q), q);
    var e := Opened(st, w, q);
    RowFacts(st, e.groups[q - e.front], e.Lo(st.cols, q - e.front), e.got, e.made);
  }

  lemma RowInReach(st: Stream, w: Window, u: nat)
    requires Shape(st) && InReach(st, w, u) && u >= w.Start(st.cols)
    ensures w.front <= RowNo(st.cols, u) < w.front + MAX_HISTORY
    ensures RowStart(st.cols, RowNo(st.cols, u)) <= u < RowStart(st.cols, RowNo(st.cols, u)) + st.cols
  {
    hide RowStart;
    var q := RowNo(st.cols, u);
    RowOf(st.cols, u, q);
    if q < w.front {
      RowStep(st.cols, q);
      RowMono(st.cols, q + 1, w.front);
    }
    if q >= w.front + MAX_HISTORY {
      RowSpan(st.cols, w.front, MAX_HISTORY);
      RowMono(st.cols, w.front + MAX_HISTORY, q);
    }
  }

  /** A data packet with offset u. */
  ghost function DataStep(st: Stream, w: Window, u: int): Window
    requires Inv(st, w) && InReach(st, w, u)
  {
    if u < w.Start(st.cols) then w
    else
      var q := RowNo(st.cols, u);
      if u in w.got + w.made then Dropped(st, w, q)
      else
        RowInReach(st, w, u);
        OpenedKeeps(st, w, q);
        Fed(st, Opened(st, w, q), q - Opened(st, w, q).front, u)
  }

  /** How many rows a loss report passes. */
  ghost function Passed(w: Window, cols: nat, onReq: bool): (n: nat)
    ensures |w.groups| > 0 ==> n < |w.groups|
  {
    if !onReq || |w.groups| < 2 then 0
    else if |w.groups| > 2 then |w.groups| - 2
    else if w.groups[1].collected <= cols / 3 then 0
    else 1
  }

  ghost function Skipped(st: Stream, w: Window, n: nat): Window
    requires n == 0 || n < |w.groups|
    decreases n
  {
    if n == 0 then w else Skipped(st, Advanced(st, w), n - 1)
  }

  lemma {:induction false} SkippedKeeps(st: Stream, w: Window, n: nat)
    requires Inv(st, w) && n < |w.groups|
    ensures var d := Skipped(st, w, n);
            Inv(st, d) && SameHistory(w, d) && d.front == w.front + n && d.front + |d.groups| == w.front + |w.groups|
    decreases n
  {
    hide Inv;
    if n > 0 {
      AdvanceKeeps(st, w);
      SkippedKeeps(st, Advanced(st, w), n - 1);
    }
  }

  /** The repair packet of row r, before the loss report. */
  ghost function TakeRepair(st: Stream, w: Window, r: nat): Window
    requires Inv(st, w) && r < w.front + MAX_HISTORY
  {
    if r < w.front then w
    else
      OpenedKeeps(st, w, r);
      Mended(st, Opened(st, w, r), r - Opened(st, w, r).front)
  }

  ghost function RepairStep(st: Stream, w: Window, r: nat, onReq: bool): Window
    requires Inv(st, w) && r < w.front + MAX_HISTORY
  {
    var t := TakeRepair(st, w, r);
    if |t.groups| == 0 then t else Skipped(st, t, Passed(t, st.cols, onReq))
  }

  lemma MendedKeeps(st: Stream, w: Window, j: nat)
    requires Inv(st, w) && j < |w.groups| && |w.groups[j].clip.payload| == st.n
    ensures var m := Mended(st, w, j);
            && Inv(st, m) && m.front == w.front && |m.groups| == |w.groups|
            && m.got == w.got && w.made <= m.made && m.repaired == w.repaired + {w.front + j}
            && w.log <= m.log
  {
    hide Wrap, RowStart, Span, RowCore, RowDone, Missing, Fits, CellsOk, LogOk, Xor;
    if !w.groups[j].hasFEC {
      RepairKeeps(st, w, j);
      TryKeeps(st, Repaired(st, w, j), j);
    } else {
      assert HasRepair(w, j);
    }
  }

  lemma FedKeeps(st: Stream, w: Window, j: nat, u: int)
    requires Inv(st, w) && j < |w.groups| && |w.groups[j].clip.payload| == st.n
    requires u in Span(w.Lo(st.cols, j), w.Lo(st.cols, j) + st.cols) && u !in w.got + w.made
    ensures var m := Fed(st, w, j, u);
            && Inv(st, m) && m.front == w.front && |m.groups| == |w.groups|
            && m.got == w.got + {u} && w.made <= m.made && m.repaired == w.repaired && w.log <= m.log
  {
    hide Wrap, RowStart, Span, RowCore, RowDone, Missing, Fits, CellsOk, LogOk, Xor, ClipOf, Inv, RowReady;
    StoreKeeps(st, w, j, u);
    TryKeeps(st, Stored(st, w, j, u), j);
  }

  /** A data packet keeps the invariant, is known afterwards, and takes nothing else away. */
  lemma DataKeeps(st: Stream, w: Window, u: int)
    requires Inv(st, w) && InReach(st, w, u)
    ensures var m := DataStep(st, w, u);
            && Inv(st, m) && w.front <= m.front && w.got <= m.got <= w.got + {u} && w.made <= m.made
            && m.repaired == w.repaired && w.log <= m.log
            && (u >= w.Start(st.cols) ==> u in m.got + m.made)
  {
    hide Inv, RowStart, Opened, Fed, Dropped, Span;
    if u >= w.Start(st.cols) {
      ShapeOf(st, w);
      RowInReach(st, w, u);
      var q := RowNo(st.cols, u);
      DroppedKeeps(st, w, q);
      OpenedKeeps(st, w, q);
      if u !in w.got + w.made {
        var e := Opened(st, w, q);
        FedKeeps(st, e, q - e.front, u);
      }
    }
  }

  lemma ShapeOf(st: Stream, w: Window)
    requires Inv(st, w)
    ensures Shape(st) && |w.groups| >= 1
  {
  }

  /** A repair packet keeps the invariant; it is taken unless its row has left the window. */
  lemma TakeKeeps(st: Stream, w: Window, r: nat)
    requires Inv(st, w) && r < w.front + MAX_HISTORY
    ensures var m := TakeRepair(st, w, r);
            && Inv(st, m) && w.front <= m.front && m.got == w.got && w.made <= m.made && w.log <= m.log
            && m.repaired == (if r < w.front then w.repaired else w.repaired + {r})
            && (r >= w.front ==> m.front <= r < m.front + |m.groups|)
  {
    hide Inv, RowStart, Opened, Mended;
    if r >= w.front {
      OpenedKeeps(st, w, r);
      var e := Opened(st, w, r);
      MendedKeeps(st, e, r - e.front);
    }
  }

  lemma RepairStepKeeps(st: Stream, w: Window, r: nat, onReq: bool)
    requires Inv(st, w) && r < w.front + MAX_HISTORY
    ensures var m := RepairStep(st, w, r, onReq); var t := TakeRepair(st, w, r);
            && Inv(st, m) && SameHistory(t, m) && m.front == t.front + Passed(t, st.cols, onReq)
  {
    hide Inv, TakeRepair, Skipped;
    TakeKeeps(st, w, r);
    var t := TakeRepair(st, w, r);
    ShapeOf(st, t);
    SkippedKeeps(st, t, Passed(t, st.cols, onReq));
  }

  /**
   * What a repair packet's loss report passes: nothing unless losses are reported on request; then all
   * rows but the last two, and of two rows the first once more than a third of the second has arrived.
   */
  lemma ReportPasses(st: Stream, w: Window, r: nat, onReq: bool)
    requires Inv(st, w) && r < w.front + MAX_HISTORY
    ensures var t := TakeRepair(st, w, r); var m := RepairStep(st, w, r, onReq);
            && (!onReq || |t.groups| < 2 ==> m == t)
            && (onReq && |t.groups| > 2 ==> |m.groups| == 2 && m.front + 2 == t.front + |t.groups|)
            && (onReq && |t.groups| == 2 ==>
                  m.front == if 3 * t.groups[1].collected > st.cols then t.front + 1 else t.front)
  {
    hide Inv, TakeRepair, RowStart;
    TakeKeeps(st, w, r);
    var t := TakeRepair(st, w, r);
    ShapeOf(st, t);
    hide Skipped;
    SkippedKeeps(st, t, Passed(t, st.cols, onReq));
    NoRowsPassed(st, t);
  }

  lemma {:induction false} NoRowsPassed(st: Stream, w: Window)
    ensures Skipped(st, w, 0) == w
  {
  }

  // ---- runs ----

  datatype Arrival = DataOf(u: int) | RepairOf(r: nat)

  /** Arrivals the 31-bit order can place and that do not force a full reset. */
  ghost predicate Handled(st: Stream, w: Window, a: Arrival) {
    match a
    case DataOf(u) => InReach(st, w, u)
    case RepairOf(r) => r < w.front + MAX_HISTORY
  }

  ghost function Received(st: Stream, w: Window, a: Arrival, onReq: bool): Window
    requires Inv(st, w) && Handled(st, w, a)
  {
    match a
    case DataOf(u) => DataStep(st, w, u)
    case RepairOf(r) => RepairStep(st, w, r, onReq)
  }

  lemma ReceivedKeeps(st: Stream, w: Window, a: Arrival, onReq: bool)
    requires Inv(st, w) && Handled(st, w, a)
    ensures Inv(st, Received(st, w, a, onReq))
  {
    hide Inv, DataStep, RepairStep;
    match a
    case DataOf(u) => DataKeeps(st, w, u);
    case RepairOf(r) => RepairStepKeeps(st, w, r, onReq);
  }

  /** A sequence of arrivals each of which can be handled where the ones before leave off. */
  ghost predicate Runs(st: Stream, arrivals: seq<Arrival>, onReq: bool)
    requires Shape(st)
    decreases |arrivals|, 0
  {
    arrivals == [] || (
      var init := arrivals[..|arrivals| - 1];
      Runs(st, init, onReq) && Handled(st, After(st, init, onReq), arrivals[|arrivals| - 1]))
  }

  ghost function After(st: Stream, arrivals: seq<Arrival>, onReq: bool): (w: Window)
    requires Shape(st) && Runs(st, arrivals, onReq)
    ensures Inv(st, w)
    decreases |arrivals|, 1
  {
    if arrivals == [] then
      InitInv(st);
      Fresh(st)
    else
      var w := After(st, arrivals[..|arrivals| - 1], onReq);
      ReceivedKeeps(st, w, arrivals[|arrivals| - 1], onReq);
      Received(st, w, arrivals[|arrivals| - 1], onReq)
  }

  /** One more arrival. */
  lemma {:induction false} AfterNext(st: Stream, arrivals: seq<Arrival>, a: Arrival, onReq: bool)
    requires Shape(st) && Runs(st, arrivals, onReq) && Handled(st, After(st, arrivals, onReq), a)
    ensures Runs(st, arrivals + [a], onReq)
    ensures After(st, arrivals + [a], onReq) == Received(st, After(st, arrivals, onReq), a, onReq)
  {
    hide Inv, Received, Handled;
    assert (arrivals + [a])[..|arrivals|] == arrivals;
  }

  /** What the receiver knows of the rows it tracks is what arrived. */
  ghost predicate Knows(st: Stream, w: Window, arrivals: seq<Arrival>) {
    && (forall u :: u in w.got ==> DataOf(u) in arrivals)
    && (forall u :: DataOf(u) in arrivals && u >= w.Start(st.cols) ==> u in w.got + w.made)
    && (forall r :: r in w.repaired ==> RepairOf(r) in arrivals)
    && (forall r: nat :: RepairOf(r) in arrivals && r >= w.front ==> r in w.repaired)
  }

  lemma KnowsStep(st: Stream, w: Window, arrivals: seq<Arrival>, a: Arrival, onReq: bool)
    requires Inv(st, w) && Handled(st, w, a) && Knows(st, w, arrivals)
    ensures Knows(st, Received(st, w, a, onReq), arrivals + [a])
  {
    hide Inv, DataStep, RepairStep, TakeRepair, RowStart, Passed;
    var m := Received(st, w, a, onReq);
    match a
    case DataOf(u) =>
      DataKeeps(st, w, u);
      RowMono(st.cols, w.front, m.front);
    case RepairOf(r) =>
      TakeKeeps(st, w, r);
      RepairStepKeeps(st, w, r, onReq);
      RowMono(st.cols, w.front, m.front);
  }

  lemma {:induction false} RunKnows(st: Stream, arrivals: seq<Arrival>, onReq: bool)
    requires Shape(st) && Runs(st, arrivals, onReq)
    ensures Knows(st, After(st, arrivals, onReq), arrivals)
  {
    hide Inv, Received, Handled, Knows;
    if arrivals == [] {
      NothingKnown(st);
    } else {
      var init, a := arrivals[..|arrivals| - 1], arrivals[|arrivals| - 1];
      RunKnows(st, init, onReq);
      KnowsStep(st, After(st, init, onReq), init, a, onReq);
      assert init + [a] == arrivals;
    }
  }

  lemma NothingKnown(st: Stream)
    ensures Knows(st, Fresh(st), [])
  {
  }

  // ---- the receiver ----

  /** Number lists of a loss report: u's number is listed for every unmarked offset u in [lo, hi), and no other. */
  ghost predicate ReportsGaps(st: Stream, w: Window, lo: int, hi: int, losses: seq<Num>) {
    && (forall u :: lo <= u < hi && u !in w.got && u !in w.made ==> Wrap(st.isn + u) in losses)
    && (forall s :: s in losses ==> exists u :: lo <= u < hi && u !in w.got && u !in w.made && s == Wrap(st.isn + u))
  }

  /** The recovered packets with the given offsets. */
  ghost function Given(st: Stream, xs: seq<int>): seq<Recovered> {
    seq(|xs|, i requires 0 <= i < |xs| => Recovered(Wrap(st.isn + xs[i]), st.f(xs[i])))
  }

  lemma HasItAlready(st: Stream, w: Window, j: nat)
    requires j < |w.groups| && w.groups[j].hasFEC && |w.groups[j].clip.payload| == st.n
    ensures Mended(st, w, j) == w
  {
  }

  /** The last packet of row r lies in row r, and is before the window exactly if the row is. */
  lemma RepairReach(st: Stream, w: Window, r: nat)
    requires Shape(st) && InReach(st, w, RowStart(st.cols, r) + st.cols - 1)
    ensures r < w.front + MAX_HISTORY && RowNo(st.cols, RowStart(st.cols, r) + st.cols - 1) == r
    ensures RowStart(st.cols, r) + st.cols - 1 < w.Start(st.cols) <==> r < w.front
  {
    DivModUnique(RowStart(st.cols, r) + st.cols - 1, st.cols, r, st.cols - 1);
    hide RowStart;
    if r < w.front {
      RowStep(st.cols, r);
      RowMono(st.cols, r + 1, w.front);
    } else {
      RowMono(st.cols, w.front, r);
      if r >= w.front + MAX_HISTORY {
        RowSpan(st.cols, w.front, MAX_HISTORY);
        RowMono(st.cols, w.front + MAX_HISTORY, r);
      }
    }
  }

  class FecReceiver {
    const cols: nat
    const payloadSize: nat
    const onReq: bool
    var rowGroups: seq<Group>
    var cells: set<Num>
    var cellBase: Num

    ghost const st: Stream
    ghost var front: nat
    ghost var got: set<int>
    ghost var made: set<int>
    ghost var log: seq<int>
    ghost var repaired: set<nat>
    ghost var arrivals: seq<Arrival>
    ghost var given: seq<Recovered>

    ghost function View(): Window
      reads this
    {
      Window(front, rowGroups, cells, got, made, log, repaired)
    }

    ghost predicate Shaped()
      reads this
    {
      cols == st.cols && payloadSize == st.n && Inv(st, View()) && cellBase == Wrap(st.isn + View().Start(cols))
    }

    /** The object is what the run of its arrivals leaves, and has handed out what that run rebuilt. */
    ghost predicate Valid()
      reads this
    {
      && Shaped() && Runs(st, arrivals, onReq) && View() == After(st, arrivals, onReq)
      && given == Given(st, log)
    }

    constructor (cols: nat, payloadSize: nat, isn: Num, onReq: bool, ghost st: Stream)
      requires Shape(st) && st.cols == cols && st.n == payloadSize && isn == Wrap(st.isn)
      ensures Valid() && arrivals == [] && given == [] && this.st == st && this.onReq == onReq
    {
      hide Wrap, Add, Inv, RowStart;
      this.cols, this.payloadSize, this.onReq, this.st := cols, payloadSize, onReq, st;
      rowGroups := [NewGroup(isn, payloadSize), NewGroup(Add(isn, cols), payloadSize)];
      cells, cellBase := {}, isn;
      front, got, made, log, repaired := 0, {}, {}, [], {};
      arrivals, given := [], [];
      new;
      WrapArith(st.isn, cols);
      InitInv(st);
    }

    /** Drops the oldest row and forgets its cells. */
    method AdvanceFront()
      requires Shaped() && |rowGroups| > 1
      modifies this`rowGroups, this`front, this`cells, this`cellBase
      ensures Shaped() && View() == Advanced(st, old(View()))
    {
      hide Wrap, Distance, RowStart, Inv;
      AdvanceKeeps(st, View());
      var newBase := rowGroups[1].base;
      rowGroups := rowGroups[1..];
      front := front + 1;
      cells := Clean(cells, newBase);
      cellBase := newBase;
    }

    /** checkLargeDrop short of a full reset: rows leave the front until the packet is at most one row ahead. */
    method CheckLargeDrop(seqNo: Num, ghost u: int)
      requires Shaped() && InReach(st, View(), u) && seqNo == Wrap(st.isn + u)
      modifies this`rowGroups, this`front, this`cells, this`cellBase
      ensures Shaped() && InReach(st, View(), u)
      ensures View() == if u < old(View()).Start(cols) then old(View()) else Dropped(st, old(View()), RowNo(cols, u))
      ensures u < View().Start(cols) ==> u < old(View()).Start(cols)
    {
      hide Wrap, Distance, RowStart, Inv;
      HeadBase();
      var off := Distance(rowGroups[0].base, seqNo);
      if off < 0 {
        return;
      }
      ghost var q := RowNo(cols, u);
      while off >= 2 * cols && |rowGroups| > 1
        invariant Shaped() && InReach(st, View(), u) && u >= View().Start(cols)
        invariant off == u - View().Start(cols) && |rowGroups| >= 1
        invariant Dropped(st, View(), q) == Dropped(st, old(View()), q)
        decreases |rowGroups|
      {
        TwoAhead(cols, front, u);
        RowStep(cols, front);
        RowsAhead(cols);
        AdvanceFront();
        HeadBase();
        off := Distance(rowGroups[0].base, seqNo);
      }
      TwoAhead(cols, front, u);
    }

    /** Two row lengths ahead of the front is two rows ahead. */
    static lemma TwoAhead(cols: nat, front: nat, u: nat)
      requires cols > 0
      ensures u - RowStart(cols, front) >= 2 * cols <==> RowNo(cols, u) >= front + 2
    {
      hide RowStart;
      var q := RowNo(cols, u);
      RowOf(cols, u, q);
      RowStep(cols, front);
      RowStep(cols, front + 1);
      if q >= front + 2 {
        RowMono(cols, front + 2, q);
      } else {
        RowStep(cols, q);
        RowMono(cols, q + 1, front + 2);
      }
    }

    /** The first row's base is the window's start, and distances from it are true offsets. */
    lemma HeadBase()
      requires Shaped()
      ensures |rowGroups| >= 1 && cols >= 2 && rowGroups[0].base == Wrap(st.isn + View().Start(cols))
      ensures forall u :: InReach(st, View(), u) ==>
                Distance(rowGroups[0].base, Wrap(st.isn + u)) == u - View().Start(cols)
    {
      hide Wrap, Distance, RowStart, RowCore, RowDone;
      RowFacts(st, rowGroups[0], View().Lo(cols, 0), got, made);
      forall u | InReach(st, View(), u)
        ensures Distance(rowGroups[0].base, Wrap(st.isn + u)) == u - View().Start(cols)
      {
        Reach(st, View(), u);
      }
    }

    static lemma RowsAhead(cols: nat)
      ensures RowStart(cols, MAX_HISTORY) == 10 * cols
    {
    }

    /** getRowGroupIndex: the row of a number, extending the window up to it; negative before the window. */
    method GetRowGroupIndex(seqNo: Num, ghost u: int) returns (idx: int)
      requires Shaped() && InReach(st, View(), u) && seqNo == Wrap(st.isn + u)
      modifies this`rowGroups
      ensures Shaped() && idx < |rowGroups|
      ensures idx < 0 <==> u < View().Start(cols)
      ensures View() == if idx < 0 then old(View()) else Reached(st, old(View()), RowNo(cols, u))
      ensures idx >= 0 ==> idx == RowNo(cols, u) - front
    {
      hide Wrap, Distance, RowStart, Inv, Span;
      HeadBase();
      var off := Distance(rowGroups[0].base, seqNo);
      if off < 0 {
        return -1;
      }
      var rowIdx: nat := off / cols;
      RowOf(cols, off, rowIdx);
      RowSpan(cols, front, rowIdx);
      WithinHistory(cols, rowIdx, off);
      ghost var q := RowNo(cols, u);
      RowOf(cols, u, q);
      RowsEqual(cols, front + rowIdx, q, u);
      while rowIdx >= |rowGroups|
        invariant Shaped() && front == old(front) && |rowGroups| >= 1
        invariant Reached(st, View(), q) == Reached(st, old(View()), q)
        decreases rowIdx - |rowGroups|
      {
        AddRow();
      }
      idx := rowIdx;
    }

    static lemma RowsEqual(cols: nat, q: nat, r: nat, u: int)
      requires RowStart(cols, q) <= u < RowStart(cols, q) + cols && RowStart(cols, r) <= u < RowStart(cols, r) + cols
      ensures q == r
    {
      hide RowStart;
      if q < r {
        RowStep(cols, q);
        RowMono(cols, q + 1, r);
      } else if r < q {
        RowStep(cols, r);
        RowMono(cols, r + 1, q);
      }
    }

    static lemma WithinHistory(cols: nat, q: nat, off: nat)
      requires RowStart(cols, q) <= off < RowStart(cols, MAX_HISTORY)
      ensures q < MAX_HISTORY
    {
      if q >= MAX_HISTORY {
        RowMono(cols, MAX_HISTORY, q);
      }
    }

    method AddRow()
      requires Shaped() && |rowGroups| < MAX_HISTORY
      modifies this`rowGroups
      ensures Shaped() && View() == Extended(st, old(View()))
    {
      hide Wrap, Add, RowStart, RowCore, RowDone;
      ghost var last := |rowGroups| - 1;
      RowFacts(st, rowGroups[last], View().Lo(cols, last), got, made);
      RowStep(cols, front + last);
      WrapArith(st.isn + View().Lo(cols, last), cols);
      ExtendKeeps(st, View());
      var nextBase := Add(rowGroups[|rowGroups| - 1].base, cols);
      rowGroups := rowGroups + [NewGroup(nextBase, payloadSize)];
    }

    /** findLostInRow: the first number of row j whose cell is not marked. */
    method FindLostInRow(j: nat, ghost u: int) returns (lost: Num)
      requires cols == st.cols && j < |rowGroups| && rowGroups[j].base == Wrap(st.isn + View().Lo(cols, j))
      requires cols < HALF && u in Span(View().Lo(cols, j), View().Lo(cols, j) + cols)
      requires forall x :: x in Span(View().Lo(cols, j), View().Lo(cols, j) + cols) ==>
                 (Marked(st, cells, x) <==> x != u)
      ensures lost == Wrap(st.isn + u)
    {
      hide Wrap, Add, RowStart, Span;
      ghost var lo := View().Lo(cols, j);
      var i := 0;
      while true
        invariant 0 <= i <= u - lo
        decreases cols - i
      {
        WrapArith(st.isn + lo, i);
        var s := Add(rowGroups[j].base, i);
        assert lo + i in Span(lo, lo + cols) && (Marked(st, cells, lo + i) <==> lo + i != u);
        if s !in cells {
          return s;
        }
        i := i + 1;
      }
    }

    /** Rebuilds row j's missing packet if the row now has its repair and all but one member. */
    method TryRebuild(j: nat) returns (out: seq<Recovered>)
      requires cols == st.cols && payloadSize == st.n && cellBase == Wrap(st.isn + View().Start(cols))
      requires RowReady(st, View(), j)
      modifies this`cells, this`made, this`log
      ensures Shaped() && View() == TryRebuilt(st, old(View()), j)
      ensures old(log) <= log && out == Given(st, log[|old(log)|..])
    {
      hide Wrap, RowStart, Span, RowCore, RowDone, Restore, CellsOk, LogOk, Missing;
      ghost var w := View();
      RowFacts(st, rowGroups[j], w.Lo(cols, j), got, made);
      out := [];
      if !(rowGroups[j].hasFEC && rowGroups[j].collected == cols - 1) {
        ReadyIsDone(st, w, j);
        return;
      }
      ghost var u := RebuildKeeps(st, w, j);
      MissingInSpan(st, w.Lo(cols, j), got, u);
      MissingUnique(st, w.Lo(cols, j), got, u, Lost(st, w.Lo(cols, j), got));
      RowCells(w, j, u);
      var lost := FindLostInRow(j, u);
      var restored := Restore(rowGroups[j].clip);
      if restored.None? {
        return;
      }
      cells := cells + {lost};
      made, log := made + {u}, log + [u];
      out := [Recovered(lost, restored.value)];
    }

    /** In a row that lacks one packet, every other number is marked. */
    lemma RowCells(w: Window, j: nat, u: int)
      requires RowReady(st, w, j) && u in Span(w.Lo(st.cols, j), w.Lo(st.cols, j) + st.cols)
      requires forall x :: x in Span(w.Lo(st.cols, j), w.Lo(st.cols, j) + st.cols) ==> (x in w.got + w.made <==> x != u)
      ensures forall x :: x in Span(w.Lo(st.cols, j), w.Lo(st.cols, j) + st.cols) ==>
                (Marked(st, w.cells, x) <==> x != u)
    {
      hide Wrap, Distance, RowStart, Span, RowCore, RowDone, LogOk;
      forall x | x in Span(w.Lo(st.cols, j), w.Lo(st.cols, j) + st.cols)
        ensures Marked(st, w.cells, x) <==> x != u
      {
        InRow(st, w, j, x);
        if x != u {
          assert x in w.got + w.made;
        }
        if Marked(st, w.cells, x) {
          var v :| v in w.got + w.made && v >= w.Start(st.cols) && Wrap(st.isn + v) == Wrap(st.isn + x);
          Reach(st, w, x);
          Reach(st, w, v);
        }
      }
    }

    // ---- arrivals ----

    /**
     * A data packet, in any order and any number of times. What comes out are the packets added to the
     * log, with their numbers and the contents the sender fed.
     */
    method ReceiveData(seqNo: Num, src: Source, ghost u: int) returns (out: seq<Recovered>)
      requires Valid() && InReach(st, View(), u) && seqNo == Wrap(st.isn + u) && src == st.f(u)
      modifies this
      ensures Valid() && arrivals == old(arrivals) + [DataOf(u)] && View() == DataStep(st, old(View()), u)
      ensures given == old(given) + out
    {
      hide Inv, InReach, Runs, After, DataStep, Given;
      ghost var w := View();
      ShapeOf(st, w);
      out := TakeData(seqNo, src, u);
      AfterNext(st, arrivals, DataOf(u), onReq);
      GivenMore(st, w.log, log);
      arrivals, given := arrivals + [DataOf(u)], given + out;
    }

    method TakeData(seqNo: Num, src: Source, ghost u: int) returns (out: seq<Recovered>)
      requires Shaped() && InReach(st, View(), u) && seqNo == Wrap(st.isn + u) && src == st.f(u)
      modifies this`rowGroups, this`front, this`cells, this`cellBase, this`got, this`made, this`log
      ensures Shaped() && View() == DataStep(st, old(View()), u)
      ensures old(log) <= log && out == Given(st, log[|old(log)|..])
    {
      hide Wrap, Distance, RowStart, Inv, Span, RowReady, Stored, Dropped, Reached, Fed, RowNo;
      out := [];
      ghost var w := View();
      CheckLargeDrop(seqNo, u);
      HeadBase();
      if u >= w.Start(cols) {
        ShapeOf(st, w);
        RowInReach(st, w, u);
        DroppedKeeps(st, w, RowNo(cols, u));
        OpenedKeeps(st, w, RowNo(cols, u));
      }
      var cellOff := Distance(cellBase, seqNo);
      if cellOff < 0 {
        return;
      }
      MarkedExact(st, View(), u);
      if seqNo in cells {
        return;
      }
      var idx := GetRowGroupIndex(seqNo, u);
      out := HangData(seqNo, src, idx, u);
    }

    method HangData(seqNo: Num, src: Source, j: nat, ghost u: int) returns (out: seq<Recovered>)
      requires Shaped() && seqNo == Wrap(st.isn + u) && src == st.f(u) && j < |rowGroups|
      requires u in Span(View().Lo(cols, j), View().Lo(cols, j) + cols) && u !in got + made
      requires |rowGroups[j].clip.payload| == st.n
      modifies this`rowGroups, this`cells, this`got, this`made, this`log
      ensures Shaped() && View() == Fed(st, old(View()), j, u)
      ensures old(log) <= log && out == Given(st, log[|old(log)|..])
    {
      hide Wrap, RowStart, Inv, Span, RowReady, Xor, ClipOf, TryRebuilt;
      StoreKeeps(st, View(), j, u);
      ghost var w := View();
      cells := cells + {seqNo};
      var clip := Clipped(rowGroups[j].clip, src);
      rowGroups := rowGroups[j := rowGroups[j].(clip := clip, collected := rowGroups[j].collected + 1)];
      got := got + {u};
      assert View() == Stored(st, w, j, u);
      out := TryRebuild(j);
    }

    /**
     * A repair packet of row r; a second one for the same row is ignored. The loss report covers the rows
     * it passes.
     */
    method ReceiveRepair(seqNo: Num, clip: Clip, ghost r: nat) returns (out: seq<Recovered>, losses: seq<Num>)
      requires Valid() && InReach(st, View(), RowStart(cols, r) + cols - 1)
      requires seqNo == Wrap(st.isn + RowStart(cols, r) + cols - 1) && clip == st.RowParity(RowStart(cols, r))
      modifies this
      ensures Valid() && arrivals == old(arrivals) + [RepairOf(r)]
      ensures r < old(front) + MAX_HISTORY && View() == RepairStep(st, old(View()), r, onReq)
      ensures given == old(given) + out
      ensures ReportsGaps(st, View(), TakeRepair(st, old(View()), r).Start(cols), View().Start(cols), losses)
    {
      hide Inv, InReach, Runs, After, RepairStep, TakeRepair, ReportsGaps, Given, RowStart, Wrap;
      ghost var w := View();
      ShapeOf(st, w);
      out, losses := TakeParity(seqNo, clip, r);
      AfterNext(st, arrivals, RepairOf(r), onReq);
      GivenMore(st, w.log, log);
      arrivals, given := arrivals + [RepairOf(r)], given + out;
    }

    method TakeParity(seqNo: Num, clip: Clip, ghost r: nat) returns (out: seq<Recovered>, losses: seq<Num>)
      requires Shaped() && InReach(st, View(), RowStart(cols, r) + cols - 1)
      requires seqNo == Wrap(st.isn + RowStart(cols, r) + cols - 1) && clip == st.RowParity(RowStart(cols, r))
      modifies this`rowGroups, this`front, this`cells, this`cellBase, this`made, this`log, this`repaired
      ensures Shaped() && r < old(front) + MAX_HISTORY && View() == RepairStep(st, old(View()), r, onReq)
      ensures old(log) <= log && out == Given(st, log[|old(log)|..])
      ensures ReportsGaps(st, View(), TakeRepair(st, old(View()), r).Start(cols), View().Start(cols), losses)
    {
      hide Wrap, Distance, RowStart, Inv, Span, Xor, ReportsGaps, Dropped, Reached, Mended, Skipped, RowNo;
      ghost var u := RowStart(cols, r) + cols - 1;
      ghost var w := View();
      ShapeOf(st, w);
      RepairReach(st, w, r);
      if r >= w.front {
        OpenedKeeps(st, w, r);
      }
      out, losses := [], [];
      CheckLargeDrop(seqNo, u);
      var idx := GetRowGroupIndex(seqNo, u);
      if idx >= 0 && !rowGroups[idx].hasFEC {
        out := HangRepair(clip, idx);
      } else if idx >= 0 {
        HasItAlready(st, View(), idx);
      }
      TakeKeeps(st, w, r);
      losses := CollectLossReport();
    }

    method HangRepair(clip: Clip, j: nat) returns (out: seq<Recovered>)
      requires Shaped() && j < |rowGroups| && !rowGroups[j].hasFEC && clip == st.RowParity(View().Lo(cols, j))
      requires |rowGroups[j].clip.payload| == st.n
      modifies this`rowGroups, this`cells, this`made, this`log, this`repaired
      ensures Shaped() && View() == Mended(st, old(View()), j)
      ensures old(log) <= log && out == Given(st, log[|old(log)|..])
    {
      hide Wrap, RowStart, Inv, RowReady, Xor, Parity, TryRebuilt;
      RepairKeeps(st, View(), j);
      ghost var w := View();
      var c := ClipData(rowGroups[j].clip, clip.length, clip.flag, clip.timestamp, clip.payload);
      assert Pad(clip.payload, |clip.payload|) == clip.payload;
      rowGroups := rowGroups[j := rowGroups[j].(hasFEC := true, clip := c)];
      repaired := repaired + {front + j};
      assert View() == Repaired(st, w, j);
      out := TryRebuild(j);
    }

    /** collectLossReport: rows well behind leave the window, and their unmarked numbers are reported. */
    method CollectLossReport() returns (losses: seq<Num>)
      requires Shaped()
      modifies this`rowGroups, this`front, this`cells, this`cellBase
      ensures Shaped() && |old(rowGroups)| > 0 && View() == Skipped(st, old(View()), Passed(old(View()), cols, onReq))
      ensures ReportsGaps(st, View(), old(View()).Start(cols), View().Start(cols), losses)
    {
      hide Wrap, RowStart, Inv, RowsOk, LogOk, ReportsGaps;
      ShapeOf(st, View());
      NoReport(st, View(), View().Start(cols));
      losses := [];
      if !onReq || |rowGroups| < 2 {
        return;
      }
      var past: int := |rowGroups| - 3;
      if past < 0 {
        var progress := rowGroups[1].collected;
        if progress <= cols / 3 {
          return;
        }
        past := 0;
      }
      var k := 0;
      while k <= past
        invariant Shaped() && 0 <= k <= past + 1 && |rowGroups| == |old(rowGroups)| - k && front == old(front) + k
        invariant ReportsGaps(st, View(), old(View()).Start(cols), View().Start(cols), losses)
        invariant past + 1 == Passed(old(View()), cols, onReq)
        invariant Skipped(st, View(), past + 1 - k) == Skipped(st, old(View()), past + 1)
        decreases past - k
      {
        var more := FrontLosses();
        ghost var w := View();
        RowMono(cols, old(front), front);
        JoinReports(st, w, old(View()).Start(cols), w.Start(cols), RowStart(cols, front + 1), losses, more);
        losses := losses + more;
        AdvanceFront();
        SameReport(st, w, View(), old(View()).Start(cols), View().Start(cols), losses);
        k := k + 1;
      }
    }

    /** The unmarked numbers of the first row. */
    method FrontLosses() returns (losses: seq<Num>)
      requires Shaped()
      ensures ReportsGaps(st, View(), View().Start(cols), RowStart(cols, front + 1), losses)
      ensures View().Start(cols) <= RowStart(cols, front + 1)
    {
      hide Wrap, Add, Distance, RowStart, RowsOk, LogOk;
      HeadBase();
      RowStep(cols, front);
      ghost var lo := View().Start(cols);
      losses := [];
      var j := 0;
      while j < cols
        invariant 0 <= j <= cols && ReportsGaps(st, View(), lo, lo + j, losses)
      {
        WrapArith(st.isn + lo, j);
        var s := Add(rowGroups[0].base, j);
        RowMono(cols, front + 1, front + |rowGroups|);
        MarkedExact(st, View(), lo + j);
        OneReport(st, View(), lo + j);
        if s !in cells {
          JoinReports(st, View(), lo, lo + j, lo + j + 1, losses, [s]);
          losses := losses + [s];
        } else {
          JoinReports(st, View(), lo, lo + j, lo + j + 1, losses, []);
          assert losses + [] == losses;
        }
        j := j + 1;
      }
    }

    /** Everything handed out, over the whole life of the object: exactly what the run makes rebuildable, each once. */
    lemma Recovers(x: int)
      requires Valid()
      ensures Shape(st) && (x in log <==> Fits(st, x) && exists i, r: nat :: ReadyAt(st, arrivals, onReq, i, r, x))
      ensures x in log ==> OccursOnce(log, x)
      ensures given == Given(st, log)
    {
      hide Shape, Inv, Given, Runs, ReadyAt, Fits, OccursOnce;
      ShapeOf(st, View());
      RebuiltExactly(st, arrivals, onReq, x);
      if x in log {
        RecoveredAtMostOnce(st, arrivals, onReq, x);
      }
    }
  }

  lemma RowEnds(cols: nat, r: nat)
    requires cols > 0
    ensures (RowStart(cols, r) + cols - 1) % cols == cols - 1
  {
    DivModUnique(RowStart(cols, r) + cols - 1, cols, r, cols - 1);
  }

  /** The repair packet a sender emits at the end of row r carries exactly the parity the receiver needs. */
  lemma RepairIsRowParity(st: Stream, cfg: FecLayout.Config, ps: seq<Source>, r: nat)
    requires cfg.Valid() && !cfg.colsOnly && cfg.cols == st.cols && cfg.payloadSize == st.n
    requires RowStart(st.cols, r) + st.cols <= |ps| && forall i :: 0 <= i < |ps| ==> ps[i] == st.f(i)
    ensures var n := RowStart(st.cols, r) + st.cols - 1;
            RowDue(cfg, st.isn, ps, n) == [Repair(-1, Wrap(st.isn + n), st.RowParity(RowStart(st.cols, r)))]
  {
    hide Xor, ClipOf, RowStart, Wrap, XorAll, Parity;
    var lo := RowStart(st.cols, r);
    var row := ps[lo..lo + st.cols];
    RowEnds(st.cols, r);
    assert forall i :: 0 <= i < |row| ==> row[i] == st.f(lo + i);
    ParityOfRun(st.f, lo, row, Span(lo, lo + st.cols), st.n);
  }

  lemma Once(log: seq<int>, i: nat, k: nat)
    requires forall a, b :: 0 <= a < b < |log| ==> log[a] != log[b]
    requires i < |log| && k < |log| && log[i] == log[k]
    ensures i == k
  {
  }

  ghost predicate OccursOnce(log: seq<int>, u: int) {
    exists i :: 0 <= i < |log| && log[i] == u && forall k :: 0 <= k < |log| && log[k] == u ==> k == i
  }

  /** All members of row r but x arrived, and x did not. */
  ghost predicate AllBut(st: Stream, arrivals: seq<Arrival>, r: nat, x: int) {
    && x in Span(RowStart(st.cols, r), RowStart(st.cols, r) + st.cols)
    && DataOf(x) !in arrivals
    && forall u :: u in Span(RowStart(st.cols, r), RowStart(st.cols, r) + st.cols) && u != x ==> DataOf(u) in arrivals
  }

  lemma {:induction false} NotRebuilt(st: Stream, g: Group, lo: int, got: set<int>, made: set<int>, u: int, x: int)
    requires RowCore(st, g, lo, got, made) && u != x && x !in got
    requires u in Span(lo, lo + st.cols) && x in Span(lo, lo + st.cols)
    ensures u !in made
  {
    hide Span, Accumulated, Wrap;
    var span := Span(lo, lo + st.cols);
    assert x !in got * span && x in span - {u};
    assert !Missing(st, lo, got, u);
    assert u in made ==> u in made * span;
  }

  /** Of such a row, exactly x is missing: no other member can have been rebuilt. */
  lemma ArrivedMissing(st: Stream, w: Window, arrivals: seq<Arrival>, r: nat, x: int)
    requires Inv(st, w) && Knows(st, w, arrivals) && AllBut(st, arrivals, r, x)
    requires w.front <= r < w.front + |w.groups|
    ensures Missing(st, RowStart(st.cols, r), w.got, x)
  {
    hide RowStart, Span, Shape, RowDone, CellsOk, LogOk, Accumulated, Wrap;
    var lo := RowStart(st.cols, r);
    var j := r - w.front;
    assert RowCore(st, w.groups[j], w.Lo(st.cols, j), w.got, w.made);
    RowMono(st.cols, w.front, r);
    forall u | u in Span(lo, lo + st.cols)
      ensures u in w.got <==> u != x
    {
      if u != x {
        NotRebuilt(st, w.groups[j], lo, w.got, w.made, u, x);
        assert u in w.got + w.made;
      }
    }
    assert w.got * Span(lo, lo + st.cols) == Span(lo, lo + st.cols) - {x};
  }

  /**
   * Row recovery is complete: in every run of data and repair packets, in any order and any number of
   * times, a row that is still tracked, whose repair packet arrived and of which all members but one
   * arrived, has given the missing one back exactly once if it fits the FEC payload size, and not at
   * all otherwise.
   */
  lemma {:induction false} RecoveredExactlyOnce(st: Stream, arrivals: seq<Arrival>, onReq: bool, r: nat, x: int)
    requires Shape(st) && Runs(st, arrivals, onReq)
    requires var w := After(st, arrivals, onReq); w.front <= r < w.front + |w.groups|
    requires RepairOf(r) in arrivals && AllBut(st, arrivals, r, x)
    ensures var log := After(st, arrivals, onReq).log;
            if Fits(st, x) then OccursOnce(log, x) else x !in log
  {
    hide RowStart, Span, RowCore, CellsOk, After, Runs, Missing, Fits, AllBut;
    RunKnows(st, arrivals, onReq);
    var w := After(st, arrivals, onReq);
    ArrivedMissing(st, w, arrivals, r, x);
    var j := r - w.front;
    assert HasRepair(w, j);
    assert RowDone(st, w.groups[j], w.Lo(st.cols, j), w.got, w.made);
    if Fits(st, x) {
      assert x in w.made;
      var i :| 0 <= i < |w.log| && w.log[i] == x;
      forall k | 0 <= k < |w.log| && w.log[k] == x
        ensures k == i
      {
        Once(w.log, i, k);
      }
    }
  }

  /** Nothing is given back twice, and only packets that fit. */
  lemma {:induction false} RecoveredAtMostOnce(st: Stream, arrivals: seq<Arrival>, onReq: bool, x: int)
    requires Shape(st) && Runs(st, arrivals, onReq) && x in After(st, arrivals, onReq).log
    ensures OccursOnce(After(st, arrivals, onReq).log, x) && Fits(st, x)
  {
    hide After, Runs, RowsOk, CellsOk, Fits;
    var log := After(st, arrivals, onReq).log;
    var i :| 0 <= i < |log| && log[i] == x;
    forall k | 0 <= k < |log| && log[k] == x
      ensures k == i
    {
      Once(log, i, k);
    }
  }

  // ---- exactly what is rebuilt ----

  /** The window after the last arrival has been taken in, before a loss report passes any row. */
  ghost function Midway(st: Stream, arrivals: seq<Arrival>, onReq: bool): Window
    requires Shape(st) && Runs(st, arrivals, onReq) && arrivals != []
  {
    var w := After(st, arrivals[..|arrivals| - 1], onReq);
    match arrivals[|arrivals| - 1]
    case DataOf(u) => DataStep(st, w, u)
    case RepairOf(r) => TakeRepair(st, w, r)
  }

  lemma {:induction false} MidwayKeeps(st: Stream, arrivals: seq<Arrival>, onReq: bool)
    requires Shape(st) && Runs(st, arrivals, onReq) && arrivals != []
    ensures var t := Midway(st, arrivals, onReq); var w := After(st, arrivals[..|arrivals| - 1], onReq);
            && Inv(st, t) && Knows(st, t, arrivals) && SameHistory(t, After(st, arrivals, onReq))
            && w.front <= t.front && w.got <= t.got && w.made <= t.made
  {
    hide Inv, DataStep, RepairStep, TakeRepair, RowStart, Passed;
    var init, a := arrivals[..|arrivals| - 1], arrivals[|arrivals| - 1];
    assert init + [a] == arrivals;
    var w := After(st, init, onReq);
    RunKnows(st, init, onReq);
    match a
    case DataOf(u) =>
      RunKnows(st, arrivals, onReq);
      DataKeeps(st, w, u);
    case RepairOf(r) =>
      TakeKeeps(st, w, r);
      RepairStepKeeps(st, w, r, onReq);
      RowMono(st.cols, w.front, TakeRepair(st, w, r).front);
  }

  /** What one attempt adds is the missing packet of its row. */
  lemma TryAdds(st: Stream, w: Window, j: nat, x: int)
    requires j < |w.groups| && x in TryRebuilt(st, w, j).made && x !in w.made
    ensures Missing(st, w.Lo(st.cols, j), w.got, x)
    ensures var t := TryRebuilt(st, w, j); t.groups == w.groups && t.front == w.front && t.got == w.got
  {
    hide Missing, Fits, RowStart, Wrap;
  }

  /** Row j of the window, not yet left, lacks exactly x. */
  ghost predicate Lacks(st: Stream, w: Window, j: nat, x: int) {
    j < |w.groups| && Missing(st, w.Lo(st.cols, j), w.got, x)
  }

  lemma DataAdds(st: Stream, w: Window, u: int, x: int) returns (j: nat)
    requires Inv(st, w) && InReach(st, w, u) && x in DataStep(st, w, u).made && x !in w.made
    ensures Lacks(st, DataStep(st, w, u), j, x) && x != u
  {
    hide Inv, RowStart, Dropped, Reached, Span, Missing, Xor, ClipOf, RowNo, TryRebuilt, InReach;
    ShapeOf(st, w);
    RowInReach(st, w, u);
    var q := RowNo(st.cols, u);
    DroppedKeeps(st, w, q);
    OpenedKeeps(st, w, q);
    var e := Opened(st, w, q);
    j := q - e.front;
    TryAdds(st, Stored(st, e, j, u), j, x);
    StillMissing(st, e.Lo(st.cols, j), e.got + {u}, x, u);
  }

  lemma StillMissing(st: Stream, lo: int, got: set<int>, x: int, u: int)
    requires Missing(st, lo, got, x) && u in got
    ensures x != u
  {
    hide Span;
    assert x !in Span(lo, lo + st.cols) - {x};
  }

  lemma RepairAdds(st: Stream, w: Window, r: nat, x: int) returns (j: nat)
    requires Inv(st, w) && r < w.front + MAX_HISTORY && x in TakeRepair(st, w, r).made && x !in w.made
    ensures Lacks(st, TakeRepair(st, w, r), j, x)
  {
    hide Inv, RowStart, Opened, Span, Missing, Xor, TryRebuilt;
    OpenedKeeps(st, w, r);
    var e := Opened(st, w, r);
    j := r - e.front;
    TryAdds(st, Repaired(st, e, j), j, x);
  }

  /**
   * After the first i arrivals, and before the loss report that the last of them may set off, row r is
   * tracked, its repair packet has arrived, and all its members but x have.
   */
  ghost predicate ReadyAt(st: Stream, arrivals: seq<Arrival>, onReq: bool, i: int, r: nat, x: int)
    requires Shape(st)
  {
    && 1 <= i <= |arrivals| && Runs(st, arrivals[..i], onReq)
    && var w := Midway(st, arrivals[..i], onReq);
    && w.front <= r < w.front + |w.groups|
    && RepairOf(r) in arrivals[..i] && AllBut(st, arrivals[..i], r, x)
  }

  lemma {:induction false} RunsPrefix(st: Stream, arrivals: seq<Arrival>, onReq: bool, i: nat)
    requires Shape(st) && Runs(st, arrivals, onReq) && i <= |arrivals|
    ensures Runs(st, arrivals[..i], onReq) && After(st, arrivals[..i], onReq).made <= After(st, arrivals, onReq).made
  {
    hide Inv, Shape, Knows, Midway;
    if i == |arrivals| {
      assert arrivals[..i] == arrivals;
    } else {
      var init := arrivals[..|arrivals| - 1];
      RunsPrefix(st, init, onReq, i);
      assert init[..i] == arrivals[..i];
      MidwayKeeps(st, arrivals, onReq);
    }
  }

  lemma {:induction false} ReadyIsRebuilt(st: Stream, arrivals: seq<Arrival>, onReq: bool, i: int, r: nat, x: int)
    requires Shape(st) && Runs(st, arrivals, onReq) && ReadyAt(st, arrivals, onReq, i, r, x) && Fits(st, x)
    ensures x in After(st, arrivals, onReq).made
  {
    hide RowStart, Span, RowCore, CellsOk, After, Runs, Missing, Fits, AllBut, Midway, Knows, LogOk, Shape;
    var p := arrivals[..i];
    MidwayKeeps(st, p, onReq);
    var w := Midway(st, p, onReq);
    ArrivedMissing(st, w, p, r, x);
    KnowsRepair(st, w, p, r);
    var j := r - w.front;
    assert HasRepair(w, j);
    assert RowDone(st, w.groups[j], w.Lo(st.cols, j), w.got, w.made);
    RunsPrefix(st, arrivals, onReq, i);
  }

  lemma KnowsRepair(st: Stream, w: Window, arrivals: seq<Arrival>, r: nat)
    requires Knows(st, w, arrivals) && r >= w.front && RepairOf(r) in arrivals
    ensures r in w.repaired
  {
  }

  /** The step that rebuilds x finds its row ready. */
  lemma FirstReady(st: Stream, arrivals: seq<Arrival>, onReq: bool, x: int) returns (r: nat)
    requires Shape(st) && Runs(st, arrivals, onReq) && arrivals != []
    requires x in After(st, arrivals, onReq).made && x !in After(st, arrivals[..|arrivals| - 1], onReq).made
    ensures ReadyAt(st, arrivals, onReq, |arrivals|, r, x)
  {
    hide Inv, RowStart, Span, DataStep, RepairStep, TakeRepair, Shape, Missing, AllBut;
    var n := |arrivals| - 1;
    var init, a := arrivals[..n], arrivals[n];
    var w, t := After(st, init, onReq), Midway(st, arrivals, onReq);
    MidwayKeeps(st, arrivals, onReq);
    var j;
    match a {
      case DataOf(u) =>
        j := DataAdds(st, w, u, x);
      case RepairOf(q) =>
        j := RepairAdds(st, w, q, x);
    }
    r := t.front + j;
    RunKnows(st, init, onReq);
    LackedIsReady(st, w, t, init, a, j, x);
    assert arrivals[..|arrivals|] == arrivals == init + [a];
  }

  lemma LackedIsReady(st: Stream, w: Window, t: Window, init: seq<Arrival>, a: Arrival, j: nat, x: int)
    requires Inv(st, t) && Knows(st, w, init) && Knows(st, t, init + [a]) && w.front <= t.front && w.got <= t.got
    requires Lacks(st, t, j, x) && x in t.made && x !in w.made && a != DataOf(x)
    ensures RepairOf(t.front + j) in init + [a] && AllBut(st, init + [a], t.front + j, x)
  {
    hide RowStart, CellsOk, LogOk, RowDone, Shape, RowCore, Missing, Wrap, Span, Fits;
    var lo := t.Lo(st.cols, j);
    RebuiltFrom(st, t.groups[j], lo, t.got, t.made, x);
    assert HasRepair(t, j);
    RowMono(st.cols, w.front, t.front + j);
    MissingInSpan(st, lo, t.got, x);
  }

  /** A rebuilt packet of a row: the row had its repair packet and every other member. */
  lemma {:induction false} RebuiltFrom(st: Stream, g: Group, lo: int, got: set<int>, made: set<int>, x: int)
    requires RowCore(st, g, lo, got, made) && x in made && Missing(st, lo, got, x)
    ensures g.hasFEC && x !in got && lo <= x
    ensures forall u :: u in Span(lo, lo + st.cols) && u != x ==> u in got
  {
    hide Span, Accumulated, Wrap;
    var span := Span(lo, lo + st.cols);
    assert x in made * span && x !in span - {x};
    AtLeast(lo, lo + st.cols, x);
    forall u | u in span && u != x
      ensures u in got
    {
      assert u in span - {x};
    }
  }

  lemma {:induction false} AtLeast(lo: int, hi: int, x: int)
    requires x in Span(lo, hi)
    ensures lo <= x < hi
  {
  }

  /**
   * Over every run: x is given back if and only if it fits the FEC payload size and at some arrival its
   * row was tracked and had its repair packet and all members but x.
   */
  lemma {:induction false} RebuiltExactly(st: Stream, arrivals: seq<Arrival>, onReq: bool, x: int)
    requires Shape(st) && Runs(st, arrivals, onReq)
    ensures x in After(st, arrivals, onReq).log <==>
              Fits(st, x) && exists i, r: nat :: ReadyAt(st, arrivals, onReq, i, r, x)
  {
    hide Inv, Shape, Fits, Runs, ReadyAt, After;
    InLog(st, After(st, arrivals, onReq), x);
    if Fits(st, x) && exists i, r: nat :: ReadyAt(st, arrivals, onReq, i, r, x) {
      var i, r: nat :| ReadyAt(st, arrivals, onReq, i, r, x);
      ReadyIsRebuilt(st, arrivals, onReq, i, r, x);
    } else if x in After(st, arrivals, onReq).log {
      var i, r := FindReady(st, arrivals, onReq, x);
    }
  }

  lemma InLog(st: Stream, w: Window, x: int)
    requires Inv(st, w)
    ensures (x in w.log <==> x in w.made) && (x in w.made ==> Fits(st, x))
  {
    hide Shape, RowsOk, CellsOk, Fits;
  }

  lemma {:induction false} FindReady(st: Stream, arrivals: seq<Arrival>, onReq: bool, x: int) returns (i: int, r: nat)
    requires Shape(st) && Runs(st, arrivals, onReq) && x in After(st, arrivals, onReq).made
    ensures ReadyAt(st, arrivals, onReq, i, r, x)
  {
    hide Inv, Shape, AllBut, Midway, Received;
    var n := |arrivals| - 1;
    var init := arrivals[..n];
    if x in After(st, init, onReq).made {
      i, r := FindReady(st, init, onReq, x);
      assert init[..i] == arrivals[..i];
    } else {
      i := |arrivals|;
      r := FirstReady(st, arrivals, onReq, x);
    }
  }

  /** What a longer log hands out. */
  lemma GivenMore(st: Stream, a: seq<int>, b: seq<int>)
    requires a <= b
    ensures Given(st, b) == Given(st, a) + Given(st, b[|a|..])
  {
    hide Wrap;
  }

  lemma OneReport(st: Stream, w: Window, u: int)
    ensures u !in w.got + w.made ==> ReportsGaps(st, w, u, u + 1, [Wrap(st.isn + u)])
    ensures u in w.got + w.made ==> ReportsGaps(st, w, u, u + 1, [])
  {
    hide Wrap;
    assert u !in w.got + w.made ==> u !in w.got && u !in w.made;
  }

  lemma NoReport(st: Stream, w: Window, u: int)
    ensures ReportsGaps(st, w, u, u, [])
  {
    hide Wrap;
  }

  lemma SameReport(st: Stream, w: Window, v: Window, lo: int, hi: int, losses: seq<Num>)
    requires ReportsGaps(st, w, lo, hi, losses) && v.got == w.got && v.made == w.made
    ensures ReportsGaps(st, v, lo, hi, losses)
  {
    hide Wrap;
  }

  lemma JoinReports(st: Stream, w: Window, lo: int, mid: int, hi: int, a: seq<Num>, b: seq<Num>)
    requires lo <= mid <= hi && ReportsGaps(st, w, lo, mid, a) && ReportsGaps(st, w, mid, hi, b)
    ensures ReportsGaps(st, w, lo, hi, a + b)
  {
    hide Wrap;
  }
}
