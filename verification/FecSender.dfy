/**
 * The FEC sender (internal/filter/fec.go): row and column parity over a stream fed in order.
 */
module FecLayout {
  import opened SeqNum
  import opened Bits

  datatype Layout = Staircase | Even

  datatype Config = Config(cols: nat, rows: nat, layout: Layout, colsOnly: bool, payloadSize: nat) {
    ghost predicate Valid() {
      cols >= 2 && rows >= 1 && cols * rows < HALF && cols < HALF
    }
  }

  /** Offset of column i's first packet: staircase columns start one row later each, wrapping after `rows`. */
  function ColumnBase(cfg: Config, i: nat): nat
    requires cfg.rows > 0
  {
    if cfg.layout.Even? then i else i + (i % cfg.rows) * cfg.cols
  }

  /** Offset of the q-th packet of column i, counted across its groups. */
  function Member(cfg: Config, i: nat, q: nat): nat
    requires cfg.rows > 0
  {
    ColumnBase(cfg, i) + q * cfg.cols
  }

  /** Offset of the j-th packet of group k of column i. */
  function GroupMember(cfg: Config, i: nat, k: nat, j: nat): nat
    requires cfg.rows > 0
  {
    Member(cfg, i, k * cfg.rows + j)
  }

  /** Members are one row apart, and a group's end is the next one's start. */
  lemma GroupMemberSteps(cfg: Config, i: nat, k: nat, j: nat)
    requires cfg.rows > 0
    ensures GroupMember(cfg, i, k, j) == GroupMember(cfg, i, k, 0) + j * cfg.cols
    ensures GroupMember(cfg, i, k, j + 1) == GroupMember(cfg, i, k, j) + cfg.cols
    ensures GroupMember(cfg, i, 0, 0) == ColumnBase(cfg, i) <= GroupMember(cfg, i, k, j)
  {
    hide ColumnBase;
    Distribute(k * cfg.rows, j, cfg.cols);
    Distribute(k * cfg.rows + j, 1, cfg.cols);
  }

  lemma NextGroup(cfg: Config, i: nat, k: nat)
    requires cfg.rows > 0
    ensures GroupMember(cfg, i, k + 1, 0) == GroupMember(cfg, i, k, cfg.rows)
    ensures GroupMember(cfg, i, k + 1, 0) == GroupMember(cfg, i, k, 0) + cfg.cols * cfg.rows
  {
    hide ColumnBase;
    Distribute(k, 1, cfg.rows);
    Distribute(k * cfg.rows, cfg.rows, cfg.cols);
  }

  lemma Distribute(a: nat, b: nat, c: nat)
    ensures (a + b) * c == a * c + b * c
  {
  }

  /** The next staircase offset, as all three loops of the source compute it. */
  function NextOffset(cfg: Config, i: nat, offset: nat): nat
    requires cfg.rows > 0
  {
    if i % cfg.rows == cfg.rows - 1 then i + 1 else offset + 1 + cfg.cols
  }

  lemma NextOffsetExact(cfg: Config, i: nat)
    requires cfg.rows > 0 && cfg.layout.Staircase?
    ensures NextOffset(cfg, i, ColumnBase(cfg, i)) == ColumnBase(cfg, i + 1)
  {
    var q, r := i / cfg.rows, i % cfg.rows;
    assert i == q * cfg.rows + r;
    if r == cfg.rows - 1 {
      assert i + 1 == (q + 1) * cfg.rows + 0;
      DivModUnique(i + 1, cfg.rows, q + 1, 0);
    } else {
      DivModUnique(i + 1, cfg.rows, q, r + 1);
      assert (r + 1) * cfg.cols == r * cfg.cols + cfg.cols;
    }
  }

  /** columnBaseOffsets, by its loop. */
  method ColumnBaseOffsets(cfg: Config) returns (offs: seq<nat>)
    requires cfg.rows > 0
    ensures |offs| == cfg.cols
    ensures forall i :: 0 <= i < cfg.cols ==> offs[i] == ColumnBase(cfg, i)
  {
    offs := [];
    var offset, i := 0, 0;
    while i < cfg.cols
      invariant 0 <= i <= cfg.cols && |offs| == i
      invariant cfg.layout.Staircase? ==> offset == ColumnBase(cfg, i)
      invariant forall j :: 0 <= j < i ==> offs[j] == ColumnBase(cfg, j)
    {
      if cfg.layout.Even? {
        offs := offs + [i];
      } else {
        offs := offs + [offset];
        NextOffsetExact(cfg, i);
        if i % cfg.rows == cfg.rows - 1 {
          offset := i + 1;
        } else {
          offset := offset + 1 + cfg.cols;
        }
      }
      i := i + 1;
    }
  }

  /** configureColumns and extendColumnSeries, whose loops differ only in what they append to. */
  method ColumnBases(cfg: Config, seriesBase: Num, ghost base: int) returns (bases: seq<Num>)
    requires cfg.Valid() && seriesBase == Wrap(base)
    ensures |bases| == cfg.cols
    ensures forall i :: 0 <= i < cfg.cols ==> bases[i] == Wrap(base + ColumnBase(cfg, i))
  {
    bases := [];
    var offset, i := 0, 0;
    while i < cfg.cols
      invariant 0 <= i <= cfg.cols && |bases| == i
      invariant cfg.layout.Staircase? ==> offset == ColumnBase(cfg, i)
      invariant forall j :: 0 <= j < i ==> bases[j] == Wrap(base + ColumnBase(cfg, j))
    {
      hide ColumnBase, NextOffset;
      ColumnBaseBound(cfg, i);
      if cfg.layout.Even? {
        WrapArith(base, i);
        bases := bases + [Add(seriesBase, i)];
      } else {
        WrapArith(base, offset);
        bases := bases + [Add(seriesBase, offset)];
        NextOffsetExact(cfg, i);
        offset := NextOffset(cfg, i, offset);
      }
      i := i + 1;
    }
  }

  lemma ColumnBaseBound(cfg: Config, i: nat)
    requires cfg.Valid() && i < cfg.cols
    ensures i <= ColumnBase(cfg, i) < cfg.cols * cfg.rows
    ensures cfg.layout.Even? ==> ColumnBase(cfg, i) == i
  {
    var r := i % cfg.rows;
    assert r * cfg.cols <= (cfg.rows - 1) * cfg.cols by { MulMono(r, cfg.rows - 1, cfg.cols); }
    assert (cfg.rows - 1) * cfg.cols + cfg.cols == cfg.cols * cfg.rows;
  }

  lemma MulMono(a: nat, b: nat, c: nat)
    requires a <= b
    ensures a * c <= b * c
  {
  }

  /** Column i holds only packets whose offset is i modulo the row length. */
  lemma MemberResidue(cfg: Config, i: nat, q: nat)
    requires cfg.Valid() && i < cfg.cols
    ensures Member(cfg, i, q) % cfg.cols == i
  {
    var s := if cfg.layout.Even? then q else i % cfg.rows + q;
    assert Member(cfg, i, q) == s * cfg.cols + i;
    DivModUnique(Member(cfg, i, q), cfg.cols, s, i);
  }

  /** The packet at offset n is the j-th of the k-th group of column i. */
  ghost predicate InGroup(cfg: Config, n: nat, i: nat, k: nat, j: nat) {
    cfg.rows > 0 && i < cfg.cols && j < cfg.rows && n == GroupMember(cfg, i, k, j)
  }

  /** Every packet at or past its column's first lies in exactly one place of exactly one column group. */
  lemma ExactlyOneGroup(cfg: Config, n: nat) returns (i: nat, k: nat, j: nat)
    requires cfg.Valid() && ColumnBase(cfg, n % cfg.cols) <= n
    ensures InGroup(cfg, n, i, k, j)
    ensures forall i': nat, k': nat, j': nat :: InGroup(cfg, n, i', k', j') ==> i' == i && k' == k && j' == j
  {
    i := n % cfg.cols;
    var b := ColumnBase(cfg, i);
    var q := Quotient(cfg, n);
    k, j := q / cfg.rows, q % cfg.rows;
    assert q == k * cfg.rows + j;
    forall i': nat, k': nat, j': nat | InGroup(cfg, n, i', k', j')
      ensures i' == i && k' == k && j' == j
    {
      MemberResidue(cfg, i', k' * cfg.rows + j');
      SameMultiple(q, k' * cfg.rows + j', cfg.cols);
      DivModUnique(q, cfg.rows, k', j');
    }
  }

  lemma SameMultiple(a: nat, b: nat, c: nat)
    requires c > 0 && a * c == b * c
    ensures a == b
  {
    assert (b - a) * c == b * c - a * c;
    assert (a - b) * c == a * c - b * c;
    if a < b {
      MulGe(b - a, c);
    } else if b < a {
      MulGe(a - b, c);
    }
  }

  /** How many rows lie between a packet and its column's first packet. */
  lemma Quotient(cfg: Config, n: nat) returns (q: nat)
    requires cfg.Valid() && ColumnBase(cfg, n % cfg.cols) <= n
    ensures n == Member(cfg, n % cfg.cols, q)
  {
    var i := n % cfg.cols;
    var s := if cfg.layout.Even? then 0 else i % cfg.rows;
    var t := n / cfg.cols;
    assert n == t * cfg.cols + i;
    assert ColumnBase(cfg, i) == s * cfg.cols + i;
    assert (s - t) * cfg.cols == s * cfg.cols - t * cfg.cols;
    if t < s {
      MulGe(s - t, cfg.cols);
      assert false;
    }
    q := t - s;
    assert q * cfg.cols == t * cfg.cols - s * cfg.cols;
  }

  /** Past the ramp-up of one matrix, every packet is protected by a column. */
  lemma PastRampUp(cfg: Config, n: nat)
    requires cfg.Valid() && n >= cfg.cols * cfg.rows
    ensures ColumnBase(cfg, n % cfg.cols) <= n
  {
    ColumnBaseBound(cfg, n % cfg.cols);
  }

  /** int8 of a column index. */
  function Int8(i: nat): int {
    var b := i % 256;
    if b < 128 then b else b - 256
  }

  /**
   * The index byte tells columns from rows exactly up to 255 columns, from each other exactly up to 256,
   * and names the column itself exactly up to 128.
   */
  lemma IndexByteDistinct(cols: nat)
    ensures (forall i: nat :: i < cols ==> Int8(i) != -1) <==> cols <= 255
    ensures (forall i: nat, j: nat :: i < j < cols ==> Int8(i) != Int8(j)) <==> cols <= 256
    ensures (forall i: nat :: i < cols ==> Int8(i) == i) <==> cols <= 128
  {
    assert Int8(255) == -1 && Int8(128) == -128 && Int8(256) == Int8(0);
  }
}

module FecSending {
  import opened SeqNum
  import opened Bits
  import opened FecXor
  import opened FecLayout

  /** A row or column accumulator. */
  datatype Group = Group(base: Num, collected: nat, hasFEC: bool, clip: Clip)

  /** A repair packet: group index (-1 for a row), the number it shares with the last data packet, and the clips. */
  datatype Repair = Repair(index: int, seqNo: Num, clip: Clip)

  function NewGroup(base: Num, n: nat): Group {
    Group(base, 0, false, Zero(n))
  }

  // ---- what the sender owes after each packet ----

  /** All packets of group k of column i have been fed. */
  ghost predicate GroupFed(cfg: Config, ps: seq<Source>, i: nat, k: nat) {
    cfg.rows > 0 && forall j: nat :: j < cfg.rows ==> GroupMember(cfg, i, k, j) < |ps|
  }

  /** The packets of group k of column i: rows of them, cols apart. */
  ghost function ColumnGroup(cfg: Config, ps: seq<Source>, i: nat, k: nat): (r: seq<Source>)
    requires GroupFed(cfg, ps, i, k)
    ensures |r| == cfg.rows
  {
    seq(cfg.rows, j requires 0 <= j < cfg.rows => ps[GroupMember(cfg, i, k, j)])
  }

  /**
   * out is the column repair due after the packet at offset n: the parity of exactly the group that
   * ends there, and nothing if none does.
   */
  ghost predicate ColumnDue(cfg: Config, isn: int, ps: seq<Source>, n: nat, out: seq<Repair>) {
    && (cfg.rows < 2 ==> out == [])
    && (cfg.rows >= 2 ==>
          && (forall i: nat, k: nat :: EndsGroup(cfg, n, i, k) ==>
                GroupFed(cfg, ps, i, k)
                && out == [Repair(Int8(i), Wrap(isn + n), XorAll(ColumnGroup(cfg, ps, i, k), cfg.payloadSize))])
          && ((forall i: nat, k: nat :: !EndsGroup(cfg, n, i, k)) ==> out == []))
  }

  ghost predicate EndsGroup(cfg: Config, n: nat, i: nat, k: nat) {
    cfg.rows > 0 && InGroup(cfg, n, i, k, cfg.rows - 1)
  }

  /** Row repair due after the packet at offset n, if it ends its row. */
  ghost function RowDue(cfg: Config, isn: int, ps: seq<Source>, n: nat): seq<Repair>
    requires cfg.cols > 0 && n < |ps|
  {
    if cfg.colsOnly || n % cfg.cols != cfg.cols - 1 then []
    else [Repair(-1, Wrap(isn + n), XorAll(ps[n + 1 - cfg.cols..n + 1], cfg.payloadSize))]
  }

  // ---- the sender ----

  /** How far column i has come: `done` complete groups and the packets of the open one. */
  datatype Progress = Progress(done: nat, open: seq<Source>)

  ghost predicate ColumnState(cfg: Config, isn: int, fed: seq<Source>, i: nat, g: Group, p: Progress)
    requires cfg.rows > 0
  {
    var next := GroupMember(cfg, i, p.done, |p.open|);
    && g.base == Wrap(isn + GroupMember(cfg, i, p.done, 0))
    && g.collected == |p.open| < cfg.rows && g.clip == XorAll(p.open, cfg.payloadSize)
    && (forall j: nat :: j < |p.open| ==>
          GroupMember(cfg, i, p.done, j) < |fed| && p.open[j] == fed[GroupMember(cfg, i, p.done, j)])
    && |fed| <= next && (p == Progress(0, []) || next - cfg.cols < |fed|)
  }

  class FecSender {
    const cfg: Config
    var row: Group
    var cols: seq<Group>
    var sndBase: Num
    var lastSeqNo: Num
    var pending: seq<Repair>

    ghost const isn: int
    ghost var fed: seq<Source>
    ghost var rowsDone: nat
    ghost var progress: seq<Progress>

    ghost predicate Valid()
      reads this
    {
      && cfg.Valid()
      && RowState()
      && |progress| == |cols| == (if cfg.rows > 1 then cfg.cols else 0)
      && forall i :: 0 <= i < |cols| ==> ColumnState(cfg, isn, fed, i, cols[i], progress[i])
    }

    ghost predicate RowState()
      reads this
    {
      var start := rowsDone * cfg.cols;
      && row.base == sndBase == Wrap(isn + start)
      && start <= |fed| < start + cfg.cols && row.collected == |fed| - start
      && row.clip == XorAll(fed[start..], cfg.payloadSize)
    }

    constructor (cfg: Config, isn: Num, ghost base: int)
      requires cfg.Valid() && isn == Wrap(base)
      ensures Valid() && fed == [] && pending == [] && this.cfg == cfg && this.isn == base
    {
      this.cfg := cfg;
      this.isn := base;
      row := NewGroup(isn, cfg.payloadSize);
      sndBase, lastSeqNo, pending := isn, isn, [];
      fed, rowsDone := [], 0;
      var groups: seq<Group> := [];
      if cfg.rows > 1 {
        var bases := ColumnBases(cfg, isn, base);
        groups := seq(cfg.cols, i requires 0 <= i < cfg.cols => NewGroup(bases[i], cfg.payloadSize));
      }
      cols := groups;
      progress := seq(|groups|, _ => Progress(0, []));
    }

    /** Feeds the next packet of the stream and collects the repairs it completes. */
    method FeedSource(seqNo: Num, src: Source)
      requires Valid() && seqNo == Wrap(isn + |fed|)
      modifies this
      ensures Valid() && fed == old(fed) + [src] && lastSeqNo == seqNo
      ensures exists col ::
                ColumnDue(cfg, isn, fed, |old(fed)|, col) && pending == col + RowDue(cfg, isn, fed, |old(fed)|)
    {
      hide ColumnState, ColumnDue, RowDue, Wrap;
      pending := [];
      lastSeqNo := seqNo;
      var baseOff := RowOffset(seqNo);
      var colRepair := FeedColumn(seqNo, src, baseOff);
      var rowRepair := FeedRow(seqNo, src);
      pending := colRepair + rowRepair;
      fed := fed + [src];
    }

    /** The packet's place in its row; the row is never already full when packets come in order. */
    method RowOffset(seqNo: Num) returns (baseOff: nat)
      requires Valid() && seqNo == Wrap(isn + |fed|)
      ensures baseOff == row.collected == |fed| % cfg.cols
    {
      hide Wrap, Distance, XorAll;
      WireOrderIsTrueOrder(isn + rowsDone * cfg.cols, isn + |fed|);
      DivModUnique(|fed|, cfg.cols, rowsDone, row.collected);
      baseOff := Distance(sndBase, seqNo);
    }

    /** Clips the packet into the row, and emits and resets the row when it is full. */
    method FeedRow(seqNo: Num, src: Source) returns (out: seq<Repair>)
      requires cfg.Valid() && RowState() && seqNo == Wrap(isn + |fed|)
      modifies this`row, this`sndBase, this`rowsDone
      ensures out == RowDue(cfg, isn, fed + [src], |fed|)
      ensures var start := rowsDone * cfg.cols; var fed' := fed + [src];
              && row.base == sndBase == Wrap(isn + start)
              && start <= |fed'| < start + cfg.cols && row.collected == |fed'| - start
              && row.clip == XorAll(fed'[start..], cfg.payloadSize)
    {
      hide Wrap, Xor, ClipOf, XorAll, Add;
      ghost var n, start, fed' := |fed|, rowsDone * cfg.cols, fed + [src];
      DivModUnique(n, cfg.cols, rowsDone, row.collected);
      XorAllSnoc(fed, start, src, cfg.payloadSize);
      Distribute(rowsDone, 1, cfg.cols);
      var clip := Clipped(row.clip, src);
      out := [];
      if row.collected + 1 >= cfg.cols {
        if !cfg.colsOnly {
          out := [Repair(-1, seqNo, clip)];
          assert fed'[n + 1 - cfg.cols..n + 1] == fed'[start..];
        }
        WrapArith(isn + start, cfg.cols);
        EmptyParity(fed'[start + cfg.cols..], cfg.payloadSize);
        row := NewGroup(Add(row.base, cfg.cols), cfg.payloadSize);
        sndBase := row.base;
        rowsDone := rowsDone + 1;
      } else {
        row := row.(clip := clip, collected := row.collected + 1);
      }
    }

    /** Clips the packet into its column unless the column has not started, and emits a full group. */
    method FeedColumn(seqNo: Num, src: Source, baseOff: nat) returns (out: seq<Repair>)
      requires Valid() && seqNo == Wrap(isn + |fed|) && baseOff == |fed| % cfg.cols
      modifies this`cols, this`progress
      ensures |progress| == |cols| == |old(cols)|
      ensures forall i :: 0 <= i < |cols| ==> ColumnState(cfg, isn, fed + [src], i, cols[i], progress[i])
      ensures ColumnDue(cfg, isn, fed + [src], |fed|, out)
    {
      hide Wrap, XorAll, Distance, GroupMember, ColumnState, ColumnDue, RowState;
      out := [];
      if cfg.rows < 2 {
        NoColumns(cfg, isn, fed + [src], |fed|);
        return;
      }
      ghost var fed', p := fed + [src], progress;
      var i := baseOff % cfg.cols;
      SmallMod(baseOff, cfg.cols);
      forall j | 0 <= j < |cols| && j != i
        ensures ColumnState(cfg, isn, fed', j, cols[j], progress[j])
      {
        OtherColumn(cfg, isn, fed, j, cols[j], progress[j], src);
      }
      var vertOff := ColumnOffset(seqNo, i);
      if vertOff < 0 {
        NotStarted(cfg, isn, fed, i, cols[i], progress[i], src);
        return;
      }
      var clip := Clipped(cols[i].clip, src);
      var g := cols[i].(clip := clip, collected := cols[i].collected + 1);
      if g.collected >= cfg.rows {
        GroupComplete(cfg, isn, fed, i, cols[i], progress[i], src);
        out := [Repair(Int8(i), seqNo, g.clip)];
        g := NewGroup(Add(g.base, cfg.cols * cfg.rows), cfg.payloadSize);
        progress := progress[i := Progress(progress[i].done + 1, [])];
      } else {
        GroupOpen(cfg, isn, fed, i, cols[i], progress[i], src);
        progress := progress[i := progress[i].(open := progress[i].open + [src])];
      }
      cols := cols[i := g];
    }

    /** The packet's distance from the base of its column's open group; negative before the column starts. */
    method ColumnOffset(seqNo: Num, i: nat) returns (vertOff: int)
      requires Valid() && cfg.rows > 1 && seqNo == Wrap(isn + |fed|) && i == |fed| % cfg.cols
      ensures ColumnState(cfg, isn, fed, i, cols[i], progress[i]) && cols[i].collected == |progress[i].open|
      ensures |cols[i].clip.payload| == cfg.payloadSize && |progress[i].open| < cfg.rows
      ensures vertOff < 0 ==> |fed| < ColumnBase(cfg, i) && progress[i] == Progress(0, [])
      ensures vertOff >= 0 ==> |fed| == GroupMember(cfg, i, progress[i].done, |progress[i].open|)
      ensures vertOff >= 0 ==> vertOff == |progress[i].open| * cfg.cols
    {
      hide Wrap, Distance, XorAll, GroupMember;
      OnStride(cfg, isn, fed, i, cols[i], progress[i]);
      WireOrderIsTrueOrder(isn + GroupMember(cfg, i, progress[i].done, 0), isn + |fed|);
      vertOff := Distance(cols[i].base, seqNo);
    }
  }

  /** clipPacket on a group's accumulators. */
  method Clipped(clip: Clip, src: Source) returns (r: Clip)
    ensures r == Xor(clip, ClipOf(src, |clip.payload|))
  {
    r := ClipData(clip, |src.payload| % 0x1_0000, src.flag, src.timestamp, src.payload);
  }

  lemma {:induction false} XorAllSnoc(ps: seq<Source>, lo: nat, src: Source, n: nat)
    requires lo <= |ps|
    ensures XorAll((ps + [src])[lo..], n) == Xor(XorAll(ps[lo..], n), ClipOf(src, n))
  {
    var ss := (ps + [src])[lo..];
    assert ss[..|ss| - 1] == ps[lo..];
  }

  lemma {:induction false} EmptyParity(ss: seq<Source>, n: nat)
    requires |ss| == 0
    ensures XorAll(ss, n) == Zero(n)
  {
  }

  lemma SmallMod(a: nat, c: nat)
    requires a < c
    ensures a % c == a
  {
    DivModUnique(a, c, 0, a);
  }

  lemma SameResidue(a: nat, b: nat, c: nat)
    requires c > 0 && a % c == b % c && a <= b < a + c
    ensures a == b
  {
    assert a == (a / c) * c + a % c && b == (b / c) * c + b % c;
    var d := b / c - a / c;
    assert d * c == b - a;
    if d >= 1 { MulGe(d, c); }
  }

  lemma NoColumns(cfg: Config, isn: int, ps: seq<Source>, n: nat)
    requires cfg.rows < 2
    ensures ColumnDue(cfg, isn, ps, n, [])
  {
  }

  /** A packet of one column leaves the others where they are. */
  lemma OtherColumn(cfg: Config, isn: int, fed: seq<Source>, i: nat, g: Group, p: Progress, src: Source)
    requires cfg.Valid() && i < cfg.cols && ColumnState(cfg, isn, fed, i, g, p) && i != |fed| % cfg.cols
    ensures ColumnState(cfg, isn, fed + [src], i, g, p)
  {
    hide Wrap, XorAll, GroupMember;
    NextResidue(cfg, i, p.done, |p.open|);
  }

  /** A column's next packet is the first one of its residue that has not been fed. */
  lemma OnStride(cfg: Config, isn: int, fed: seq<Source>, i: nat, g: Group, p: Progress)
    requires cfg.Valid() && ColumnState(cfg, isn, fed, i, g, p) && i == |fed| % cfg.cols && i < cfg.cols
    ensures |fed| < ColumnBase(cfg, i) ==> p == Progress(0, [])
    ensures |fed| >= ColumnBase(cfg, i) ==> |fed| == GroupMember(cfg, i, p.done, |p.open|)
    ensures |fed| >= ColumnBase(cfg, i) ==> |fed| - GroupMember(cfg, i, p.done, 0) == |p.open| * cfg.cols < HALF
    ensures |fed| < ColumnBase(cfg, i) ==> -HALF < |fed| - GroupMember(cfg, i, p.done, 0) < 0
  {
    hide Wrap, XorAll, GroupMember, ColumnBase;
    var n, next := |fed|, GroupMember(cfg, i, p.done, |p.open|);
    NextResidue(cfg, i, p.done, |p.open|);
    GroupMemberSteps(cfg, i, p.done, |p.open|);
    ColumnBaseBound(cfg, i);
    OpenSpan(cfg, |p.open|);
    if p != Progress(0, []) {
      SameResidue(n, next, cfg.cols);
    }
  }

  lemma NextResidue(cfg: Config, i: nat, k: nat, j: nat)
    requires cfg.Valid() && i < cfg.cols
    ensures GroupMember(cfg, i, k, j) % cfg.cols == i
  {
    MemberResidue(cfg, i, k * cfg.rows + j);
  }

  lemma OpenSpan(cfg: Config, c: nat)
    requires cfg.Valid() && c < cfg.rows
    ensures c * cfg.cols < HALF
  {
    MulMono(c, cfg.rows, cfg.cols);
  }

  /** Before its column starts a packet ends no group. */
  lemma NotStarted(cfg: Config, isn: int, fed: seq<Source>, i: nat, g: Group, p: Progress, src: Source)
    requires cfg.Valid() && cfg.rows > 1 && i == |fed| % cfg.cols && i < cfg.cols && ColumnState(cfg, isn, fed, i, g, p)
    requires |fed| < ColumnBase(cfg, i) && p == Progress(0, [])
    ensures ColumnState(cfg, isn, fed + [src], i, g, p)
    ensures ColumnDue(cfg, isn, fed + [src], |fed|, [])
  {
    hide Wrap, XorAll, ColumnGroup;
    GroupMemberSteps(cfg, i, 0, 0);
    forall i': nat, k': nat
      ensures !EndsGroup(cfg, |fed|, i', k')
    {
      if EndsGroup(cfg, |fed|, i', k') {
        MemberResidue(cfg, i', k' * cfg.rows + (cfg.rows - 1));
        GroupMemberSteps(cfg, i', k', cfg.rows - 1);
        assert false;
      }
    }
  }

  /** Places in groups are unique. */
  lemma GroupUnique(cfg: Config, n: nat, i: nat, k: nat, j: nat, i': nat, k': nat, j': nat)
    requires cfg.Valid() && InGroup(cfg, n, i, k, j) && InGroup(cfg, n, i', k', j')
    ensures i == i' && k == k' && j == j'
  {
    MemberResidue(cfg, i, k * cfg.rows + j);
    MemberResidue(cfg, i', k' * cfg.rows + j');
    GroupMemberSteps(cfg, i, k, j);
    var a, b, c := ExactlyOneGroup(cfg, n);
  }

  /** The packet joins its column's open group without ending it. */
  lemma GroupOpen(cfg: Config, isn: int, fed: seq<Source>, i: nat, g: Group, p: Progress, src: Source)
    requires cfg.Valid() && cfg.rows > 1 && i < cfg.cols && ColumnState(cfg, isn, fed, i, g, p)
    requires |fed| == GroupMember(cfg, i, p.done, |p.open|) && |p.open| + 1 < cfg.rows
    ensures ColumnState(cfg, isn, fed + [src], i,
                        g.(clip := Xor(g.clip, ClipOf(src, cfg.payloadSize)), collected := g.collected + 1),
                        p.(open := p.open + [src]))
    ensures ColumnDue(cfg, isn, fed + [src], |fed|, [])
  {
    hide Wrap, GroupMember, Xor, ClipOf;
    var open := p.open + [src];
    assert open[..|p.open|] == p.open;
    GroupMemberSteps(cfg, i, p.done, |p.open|);
    forall i': nat, k': nat
      ensures !EndsGroup(cfg, |fed|, i', k')
    {
      if EndsGroup(cfg, |fed|, i', k') {
        GroupUnique(cfg, |fed|, i, p.done, |p.open|, i', k', cfg.rows - 1);
        assert false;
      }
    }
  }

  /** The packet completes the group: the accumulated clip is the parity of exactly that group's packets. */
  lemma GroupComplete(cfg: Config, isn: int, fed: seq<Source>, i: nat, g: Group, p: Progress, src: Source)
    requires cfg.Valid() && cfg.rows > 1 && i < cfg.cols && ColumnState(cfg, isn, fed, i, g, p)
    requires |fed| == GroupMember(cfg, i, p.done, |p.open|) && |p.open| + 1 == cfg.rows
    ensures ColumnDue(cfg, isn, fed + [src], |fed|,
                      [Repair(Int8(i), Wrap(isn + |fed|), Xor(g.clip, ClipOf(src, cfg.payloadSize)))])
    ensures ColumnState(cfg, isn, fed + [src], i,
                        NewGroup(Add(g.base, cfg.cols * cfg.rows), cfg.payloadSize), Progress(p.done + 1, []))
  {
    GroupCloses(cfg, isn, fed, i, g, p, src);
    GroupParity(cfg, isn, fed, i, g, p, src);
  }

  lemma GroupCloses(cfg: Config, isn: int, fed: seq<Source>, i: nat, g: Group, p: Progress, src: Source)
    requires cfg.Valid() && i < cfg.cols && ColumnState(cfg, isn, fed, i, g, p)
    requires |fed| == GroupMember(cfg, i, p.done, |p.open|) && |p.open| + 1 == cfg.rows
    ensures ColumnState(cfg, isn, fed + [src], i,
                        NewGroup(Add(g.base, cfg.cols * cfg.rows), cfg.payloadSize), Progress(p.done + 1, []))
  {
    hide Wrap, Add, GroupMember;
    GroupMemberSteps(cfg, i, p.done, |p.open|);
    NextGroup(cfg, i, p.done);
    WrapArith(isn + GroupMember(cfg, i, p.done, 0), cfg.cols * cfg.rows);
  }

  lemma GroupParity(cfg: Config, isn: int, fed: seq<Source>, i: nat, g: Group, p: Progress, src: Source)
    requires cfg.Valid() && cfg.rows > 1 && i < cfg.cols && ColumnState(cfg, isn, fed, i, g, p)
    requires |fed| == GroupMember(cfg, i, p.done, |p.open|) && |p.open| + 1 == cfg.rows
    ensures ColumnDue(cfg, isn, fed + [src], |fed|,
                      [Repair(Int8(i), Wrap(isn + |fed|), Xor(g.clip, ClipOf(src, cfg.payloadSize)))])
  {
    hide Wrap, GroupMember, Xor, ClipOf;
    var fed', n, k := fed + [src], |fed|, p.done;
    var open := p.open + [src];
    assert open[..|p.open|] == p.open;
    assert XorAll(open, cfg.payloadSize) == Xor(g.clip, ClipOf(src, cfg.payloadSize));
    assert GroupFed(cfg, fed', i, k) && ColumnGroup(cfg, fed', i, k) == open;
    forall i': nat, k': nat | EndsGroup(cfg, n, i', k')
      ensures i' == i && k' == k
    {
      GroupUnique(cfg, n, i, k, |p.open|, i', k', cfg.rows - 1);
    }
    assert EndsGroup(cfg, n, i, k);
  }
}
