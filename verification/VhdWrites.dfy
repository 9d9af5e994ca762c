/** What the steps of a VHD write do to the disk, while one block bitmap waits in memory. */
module VhdWrites {
  import opened Bytes
  import opened BlockBitmaps
  import opened VhdFooter
  import opened VhdLayers
  import opened VhdSteps
  import opened VhdReads

  /** The bitmap of block held, kept in memory; none when bits is empty. */
  ghost predicate Waiting(a: Layer, d: seq<Byte>, held: nat, base: nat, bits: seq<Byte>) {
    && a.d == Flushed(d, base, bits) && |a.d| == |d|
    && (bits == [] || (held < a.g.entries && a.Has(held) && a.Base(held) == base && |bits| == a.g.Bm()))
  }

  lemma WaitingAt(a: Layer, d: seq<Byte>, held: nat, base: nat, bits: seq<Byte>, k: int)
    requires a.Layout() && Waiting(a, d, held, base, bits)
    requires k < a.start || k >= |d| - 512
    ensures At(d, k) == At(a.d, k)
  {
    if bits != [] {
      BlockFits(a, held);
      hide Layer.Layout, BE32;
      AtOverwrite(d, base, bits, k);
    }
  }

  /** Table and footer in the file are already those of the flushed container. */
  lemma WaitingEntry(a: Layer, d: seq<Byte>, held: nat, base: nat, bits: seq<Byte>, j: nat)
    requires a.Layout() && Waiting(a, d, held, base, bits) && j < a.g.entries
    ensures BE32(d, a.Slot(j)) == a.Entry(j)
  {
    hide Layer.Layout, Waiting, BE32;
    LayoutFramed(a);
    TableBeforeBlocks(a, j);
    WaitingAt(a, d, held, base, bits, a.Slot(j));
    WaitingAt(a, d, held, base, bits, a.Slot(j) + 1);
    WaitingAt(a, d, held, base, bits, a.Slot(j) + 2);
    WaitingAt(a, d, held, base, bits, a.Slot(j) + 3);
    SameWord(a.d, d, a.Slot(j));
    EntryOf(a, j);
  }

  lemma SameWord(a: seq<Byte>, b: seq<Byte>, k: int)
    requires At(b, k) == At(a, k) && At(b, k + 1) == At(a, k + 1) && At(b, k + 2) == At(a, k + 2) &&
        At(b, k + 3) == At(a, k + 3)
    ensures BE32(b, k) == BE32(a, k)
  {
  }

  lemma EntryOf(a: Layer, j: nat)
    ensures a.Entry(j) == BE32(a.d, a.Slot(j))
  {
  }

  /** The file after a block was allocated: table entry, empty bitmap, zeroed data, footer. */
  function Extended(d: seq<Byte>, slot: nat, e: nat, g: Geo, footer: seq<Byte>): seq<Byte> {
    var d1 := Overwrite(d, slot, Pack32BE(Min(e / 512, UNUSED)));
    var d2 := Overwrite(d1, e, Zeros(g.Bm()));
    var d3 := Overwrite(d2, e + g.Bm(), Zeros(g.block));
    Overwrite(d3, e + g.Raw(), footer)
  }

  lemma ExtendedAt(d: seq<Byte>, slot: nat, e: nat, g: Geo, footer: seq<Byte>, k: int)
    requires |footer| == 512 && e + 512 == |d| && slot + 4 <= e
    ensures |Extended(d, slot, e, g, footer)| == |d| + g.Raw()
    ensures k < e && !(slot <= k < slot + 4) ==> At(Extended(d, slot, e, g, footer), k) == At(d, k)
    ensures slot <= k < slot + 4 ==> At(Extended(d, slot, e, g, footer), k) == At(Overwrite(d, slot, Pack32BE(Min(e / 512, UNUSED))), k)
    ensures e <= k < e + g.Raw() ==> At(Extended(d, slot, e, g, footer), k) == 0
    ensures e + g.Raw() <= k < e + g.Raw() + 512 ==> At(Extended(d, slot, e, g, footer), k) == footer[k - e - g.Raw()]
  {
    var p := Pack32BE(Min(e / 512, UNUSED));
    var d1 := Overwrite(d, slot, p);
    var d2 := Overwrite(d1, e, Zeros(g.Bm()));
    var d3 := Overwrite(d2, e + g.Bm(), Zeros(g.block));
    AtOverwrite(d, slot, p, k);
    AtOverwrite(d1, e, Zeros(g.Bm()), k);
    AtOverwrite(d2, e + g.Bm(), Zeros(g.block), k);
    AtOverwrite(d3, e + g.Raw(), footer, k);
    ZerosAt(g.Bm(), k - e);
    ZerosAt(g.block, k - e - g.Bm());
    hide Overwrite, At, Zeros, Pack32BE;
  }

  lemma ZerosAt(n: nat, k: int)
    ensures |Zeros(n)| == n && (0 <= k < n ==> Zeros(n)[k] == 0)
  {
  }

  lemma ExtendedEntry(d: seq<Byte>, slot: nat, e: nat, g: Geo, footer: seq<Byte>)
    requires |footer| == 512 && e + 512 == |d| && slot + 4 <= e && e / 512 < UNUSED
    ensures BE32(Extended(d, slot, e, g, footer), slot) == e / 512
  {
    var x := Extended(d, slot, e, g, footer);
    var w := Overwrite(d, slot, Pack32BE(e / 512));
    PackedBE32(d, slot, e / 512);
    ExtendedAt(d, slot, e, g, footer, slot);
    ExtendedAt(d, slot, e, g, footer, slot + 1);
    ExtendedAt(d, slot, e, g, footer, slot + 2);
    ExtendedAt(d, slot, e, g, footer, slot + 3);
    SameWord(w, x, slot);
  }

  /** Allocating while a bitmap waits is allocating in the flushed container. */
  lemma ExtendWaiting(a: Layer, d: seq<Byte>, held: nat, base: nat, bits: seq<Byte>, i: nat, footer: seq<Byte>,
      b: Layer)
    requires a.Layout() && Waiting(a, d, held, base, bits) && i < a.g.entries && !a.Has(i)
    requires bits == [] ==> base == 0
    requires footer == Packed(Trail(d))
    requires b == a.(d := Flushed(Extended(d, a.Slot(i), |d| - 512, a.g, footer), base, bits))
    ensures Appended(a, b, i)
  {
    FooterSector(a, i) by { assert a.Framed(); }
    TableBeforeBlocks(a, i) by { assert a.Framed(); }
    var x := Extended(d, a.Slot(i), |d| - 512, a.g, footer);
    ExtendedAt(d, a.Slot(i), |d| - 512, a.g, footer, 0);
    if bits != [] {
      BlockFits(a, held);
    }
    hide Layer.Layout, Layer.Framed, Extended, Packed;
    ExtendWaitingBytes(a, d, base, bits, i, footer, b);
  }

  lemma ExtendWaitingAt(a: Layer, d: seq<Byte>, base: nat, bits: seq<Byte>, i: nat, footer: seq<Byte>, b: Layer, k: int)
    requires a.d == Flushed(d, base, bits) && |a.d| == |d| >= 512 && a.Slot(i) + 4 <= a.start <= |d| - 512
    requires base + |bits| <= |d| - 512 && (bits == [] || a.start <= base)
    requires |footer| == 512
    requires b == a.(d := Flushed(Extended(d, a.Slot(i), |d| - 512, a.g, footer), base, bits))
    ensures |b.d| == |a.d| + a.g.Raw()
    ensures k < |d| - 512 && !(a.Slot(i) <= k < a.Slot(i) + 4) ==> At(b.d, k) == At(a.d, k)
    ensures |d| - 512 <= k < |d| - 512 + a.g.Raw() ==> At(b.d, k) == 0
    ensures a.Slot(i) <= k < a.Slot(i) + 4 ==> At(b.d, k) == At(Extended(d, a.Slot(i), |d| - 512, a.g, footer), k)
    ensures |d| - 512 + a.g.Raw() <= k < |d| + a.g.Raw() ==> At(b.d, k) == footer[k - (|d| - 512 + a.g.Raw())]
  {
    hide Flushed, Extended, At, Layer.Slot, Geo.Raw;
    ExtendedAt(d, a.Slot(i), |d| - 512, a.g, footer, k);
    FlushedAt(d, base, bits, k);
    FlushedAt(Extended(d, a.Slot(i), |d| - 512, a.g, footer), base, bits, k);
  }

  lemma ExtendWaitingFoot(a: Layer, d: seq<Byte>, base: nat, bits: seq<Byte>, i: nat, footer: seq<Byte>, b: Layer,
      k: nat)
    requires a.d == Flushed(d, base, bits) && |a.d| == |d| >= 512 && a.Slot(i) + 4 <= a.start <= |d| - 512
    requires base + |bits| <= |d| - 512 && (bits == [] || a.start <= base)
    requires |footer| == 512
    requires b == a.(d := Flushed(Extended(d, a.Slot(i), |d| - 512, a.g, footer), base, bits))
    requires k < 512
    ensures Foot(b.d, k) == footer[k] && Foot(a.d, k) == Foot(d, k)
  {
    hide Flushed, Extended, At;
    ExtendWaitingAt(a, d, base, bits, i, footer, b, |d| - 512 + a.g.Raw() + k);
    FlushedAt(d, base, bits, |d| - 512 + k);
  }

  lemma ExtendWaitingBytes(a: Layer, d: seq<Byte>, base: nat, bits: seq<Byte>, i: nat, footer: seq<Byte>, b: Layer)
    requires a.d == Flushed(d, base, bits) && |a.d| == |d| >= 512 && a.Slot(i) + 4 <= a.start <= |d| - 512
    requires base + |bits| <= |d| - 512 && (bits == [] || a.start <= base)
    requires |footer| == 512
    requires b == a.(d := Flushed(Extended(d, a.Slot(i), |d| - 512, a.g, footer), base, bits))
    requires |d| % 512 == 0 && (|d| - 512) / 512 < UNUSED
    requires footer == Packed(Trail(d))
    ensures Appended(a, b, i)
  {
    hide Flushed, Packed, Trail, Extended;
    forall k: int
      ensures |b.d| == |a.d| + a.g.Raw()
      ensures k < |d| - 512 && !(a.Slot(i) <= k < a.Slot(i) + 4) ==> At(b.d, k) == At(a.d, k)
      ensures |d| - 512 <= k < |d| - 512 + a.g.Raw() ==> At(b.d, k) == 0
    {
      ExtendWaitingAt(a, d, base, bits, i, footer, b, k);
    }
    forall k {:trigger Foot(b.d, k)} | 0 <= k < 512 ensures Foot(b.d, k) == footer[k] {
      ExtendWaitingFoot(a, d, base, bits, i, footer, b, k);
    }
    forall k {:trigger Foot(a.d, k)} | 0 <= k < 512 ensures Foot(a.d, k) == Foot(d, k) {
      ExtendWaitingFoot(a, d, base, bits, i, footer, b, k);
    }
    ExtendWaitingEntry(a, d, base, bits, i, footer, b);
    TrailIs(b.d, footer);
    SameTrail(a.d, d);
    hide Flushed, Extended, At, Foot, BE32, Packed, Trail;
  }

  lemma TrailIs(d: seq<Byte>, s: seq<Byte>)
    requires |s| == 512 && forall k {:trigger Foot(d, k)} :: 0 <= k < 512 ==> Foot(d, k) == s[k]
    ensures Trail(d) == s
  {
    var t := Trail(d);
    forall k | 0 <= k < 512 ensures t[k] == s[k] {
      assert t[k] == Foot(d, k);
    }
  }

  lemma SameTrail(d: seq<Byte>, e: seq<Byte>)
    requires forall k {:trigger Foot(d, k)} :: 0 <= k < 512 ==> Foot(d, k) == Foot(e, k)
    ensures Trail(d) == Trail(e)
  {
    var t, u := Trail(d), Trail(e);
    forall k | 0 <= k < 512 ensures t[k] == u[k] {
      assert t[k] == Foot(d, k) == Foot(e, k) == u[k];
    }
  }

  lemma ExtendWaitingEntry(a: Layer, d: seq<Byte>, base: nat, bits: seq<Byte>, i: nat, footer: seq<Byte>, b: Layer)
    requires a.d == Flushed(d, base, bits) && |a.d| == |d| >= 512 && a.Slot(i) + 4 <= a.start <= |d| - 512
    requires base + |bits| <= |d| - 512 && (bits == [] || a.start <= base)
    requires |footer| == 512
    requires b == a.(d := Flushed(Extended(d, a.Slot(i), |d| - 512, a.g, footer), base, bits))
    requires (|d| - 512) / 512 < UNUSED
    ensures b.Entry(i) == (|d| - 512) / 512
  {
    hide Flushed, Extended, At, BE32;
    var x := Extended(d, a.Slot(i), |d| - 512, a.g, footer);
    ExtendedEntry(d, a.Slot(i), |d| - 512, a.g, footer);
    ExtendWaitingAt(a, d, base, bits, i, footer, b, a.Slot(i));
    ExtendWaitingAt(a, d, base, bits, i, footer, b, a.Slot(i) + 1);
    ExtendWaitingAt(a, d, base, bits, i, footer, b, a.Slot(i) + 2);
    ExtendWaitingAt(a, d, base, bits, i, footer, b, a.Slot(i) + 3);
    SameWord(x, b.d, a.Slot(i));
  }

  /** A bitmap just read from the file changes nothing when it is flushed. */
  lemma FlushedSame(d: seq<Byte>, base: nat, n: nat)
    requires base + n <= |d|
    ensures |ReadAt(d, base, n)| == n && Flushed(d, base, ReadAt(d, base, n)) == d
  {
  }

  // ---- the disk before and after ----

  /** k' shows s from p on, and everywhere else what k shows. */
  ghost predicate Wrote(k: Disk, k': Disk, p: nat, s: seq<Byte>) {
    && k.Over? && k'.Over? && k'.top.g == k.top.g
    && forall q {:trigger k'.Shows(q)} :: 0 <= q < k.top.g.size ==>
         k'.Shows(q) == if p <= q < p + |s| then s[q - p] else k.Shows(q)
  }

  ghost predicate SameDisk(k: Disk, k': Disk) { Wrote(k, k', 0, []) }

  lemma WroteNothing(k: Disk, p: nat)
    requires k.Over?
    ensures Wrote(k, k, p, []) && SameDisk(k, k)
  {
  }

  lemma WroteSame(k: Disk, k1: Disk, k2: Disk, p: nat, s: seq<Byte>)
    requires SameDisk(k, k1) && Wrote(k1, k2, p, s)
    ensures Wrote(k, k2, p, s)
  {
    hide Disk.Shows;
    forall q {:trigger k2.Shows(q)} | 0 <= q < k.top.g.size
      ensures k2.Shows(q) == if p <= q < p + |s| then s[q - p] else k.Shows(q)
    {
      assert k1.Shows(q) == k.Shows(q);
    }
  }

  lemma WroteMore(k: Disk, k1: Disk, k2: Disk, p: nat, s: seq<Byte>, r: seq<Byte>)
    requires Wrote(k, k1, p, s) && Wrote(k1, k2, p + |s|, r)
    ensures Wrote(k, k2, p, s + r)
  {
    hide Disk.Shows;
    forall q {:trigger k2.Shows(q)} | 0 <= q < k.top.g.size
      ensures k2.Shows(q) == if p <= q < p + |s + r| then (s + r)[q - p] else k.Shows(q)
    {
      assert k1.Shows(q) == if p <= q < p + |s| then s[q - p] else k.Shows(q);
    }
  }

  /** Storing what the disk shows anyway leaves it the same. */
  lemma WroteShown(k: Disk, k': Disk, p: nat, s: seq<Byte>)
    requires Wrote(k, k', p, s) && Fetched(k, p, s)
    ensures SameDisk(k, k')
  {
    hide Disk.Shows;
    forall q {:trigger k'.Shows(q)} | 0 <= q < k.top.g.size ensures k'.Shows(q) == k.Shows(q) {
      if p <= q < p + |s| {
        assert s[q - p] == k.Shows(p + (q - p));
      }
    }
  }

  /** A write shows in the contents as an overwrite. */
  lemma WroteView(k: Disk, k': Disk, p: nat, s: seq<Byte>)
    requires Wrote(k, k', p, s) && p + |s| <= k.top.g.size
    ensures k'.View() == Overwrite(k.View(), p, s)
  {
    var v, w := k.View(), k'.View();
    forall q | 0 <= q < k.top.g.size ensures w[q] == if p <= q < p + |s| then s[q - p] else v[q] {
      ViewAt(k, q);
      ViewAt(k', q);
      assert k'.Shows(q) == if p <= q < p + |s| then s[q - p] else k.Shows(q);
    }
    assert w == Overwrite(v, p, s);
  }

  /** Zeros for a block no image holds need not be stored. */
  lemma ZerosVirtual(k: Disk, p: nat, s: seq<Byte>)
    requires k.Valid() && k.Over? && k.top.g.block > 0 && !k.Known(k.top.g.Blk(p))
    requires k.top.g.Off(p) + |s| <= k.top.g.block && s == Zeros(|s|)
    ensures Wrote(k, k, p, s)
  {
    hide Disk.Valid, Disk.Shows, Disk.Known, Geo.Blk, Geo.Off;
    forall q {:trigger k.Shows(q)} | 0 <= q < k.top.g.size
      ensures k.Shows(q) == if p <= q < p + |s| then s[q - p] else k.Shows(q)
    {
      if p <= q < p + |s| {
        k.top.g.Along(p, q - p);
        UnknownIsZero(k, q);
      }
    }
  }

  lemma AppendedDisk(a: Layer, b: Layer, u: Disk, i: nat)
    requires Over(a, u).Valid() && Appended(a, b, i) && i < a.g.entries && !a.Has(i)
    ensures Over(b, u).Valid() && SameDisk(Over(a, u), Over(b, u))
  {
    hide Layer.Layout, Layer.Blank, Layer.Has;
    AppendedLayout(a, b, i);
    assert b.g == a.g;
    LayoutFramed(a);
    forall q {:trigger Over(b, u).Shows(q)} | 0 <= q < a.g.size
      ensures Over(b, u).Shows(q) == Over(a, u).Shows(q)
    {
      SizeInTable(a);
      Positive(a.g);
      a.g.Inside(q);
      AppendedShown(a, b, i, q, u.Shows(q));
    }
  }

  lemma SizeInTable(a: Layer)
    requires a.Framed()
    ensures a.g.Valid() && a.g.size <= a.g.Pos(a.g.entries, 0)
  {
  }

  lemma ChangedDisk(a: Layer, b: Layer, u: Disk, i: nat, from: nat, n: nat, off: nat, s: seq<Byte>)
    requires Over(a, u).Valid() && i < a.g.entries && a.Has(i)
    requires Changed(a, b, i, from, n, off, s) && Covers(a.g, i, from, n, off, |s|)
    requires Ready(a, u, i, from, n, off, |s|)
    ensures Over(b, u).Valid() && Wrote(Over(a, u), Over(b, u), a.g.Pos(i, off), s)
  {
    ChangedLayout(a, b, i, from, n, off, s);
    assert b.g == a.g;
    hide Layer.Layout, Layer.Blank, Layer.Has, Changed, Covers, Ready, Geo.Pos;
    forall q {:trigger Over(b, u).Shows(q)} | 0 <= q < a.g.size
      ensures Over(b, u).Shows(q) ==
        if a.g.Pos(i, off) <= q < a.g.Pos(i, off) + |s| then s[q - a.g.Pos(i, off)] else Over(a, u).Shows(q)
    {
      ChangedShows(a, b, u, i, from, n, off, s, q);
    }
  }

  // ---- which blocks a write allocates ----

  /** The block byte j of a write at p goes to. */
  ghost function BlkOf(g: Geo, p: nat, j: nat): nat { g.Blk(p + j) }

  /** Byte j of s, written at p, is no zero, or goes to a block that an image underneath holds. */
  ghost predicate Counts(g: Geo, u: Disk, p: nat, s: seq<Byte>, j: nat) {
    j < |s| && (s[j] != 0 || u.Known(BlkOf(g, p, j)))
  }

  /** The blocks with such bytes: those the write cannot leave virtual. */
  ghost function Needed(g: Geo, u: Disk, p: nat, s: seq<Byte>): set<nat> {
    set j: nat | j < |s| && Counts(g, u, p, s, j) :: BlkOf(g, p, j)
  }

  lemma NeededMore(g: Geo, u: Disk, p: nat, s: seq<Byte>, r: seq<Byte>)
    ensures Needed(g, u, p, s + r) == Needed(g, u, p, s) + Needed(g, u, p + |s|, r)
  {
    var t := s + r;
    forall j: nat | j < |s| ensures Counts(g, u, p, s, j) == Counts(g, u, p, t, j) {
    }
    forall j: nat | |s| <= j < |t|
      ensures Counts(g, u, p, t, j) == Counts(g, u, p + |s|, r, j - |s|) && BlkOf(g, p, j) == BlkOf(g, p + |s|, j - |s|)
    {
      assert t[j] == r[j - |s|] && p + j == p + |s| + (j - |s|);
    }
    hide BlkOf, Counts;
    var x, y, z := Needed(g, u, p, t), Needed(g, u, p, s), Needed(g, u, p + |s|, r);
    forall b | b in x ensures b in y + z {
      var j: nat :| j < |t| && Counts(g, u, p, t, j) && BlkOf(g, p, j) == b;
      if j >= |s| {
        assert Counts(g, u, p + |s|, r, j - |s|);
      }
    }
    forall b | b in y + z ensures b in x {
      if b !in y {
        var j: nat :| j < |r| && Counts(g, u, p + |s|, r, j) && BlkOf(g, p + |s|, j) == b;
        assert Counts(g, u, p, t, |s| + j);
      }
    }
  }

  /** Inside one block. */
  lemma NeededOne(g: Geo, u: Disk, p: nat, s: seq<Byte>)
    requires g.block > 0 && |s| > 0 && g.Off(p) + |s| <= g.block
    ensures Needed(g, u, p, s) == if u.Known(g.Blk(p)) || s != Zeros(|s|) then {g.Blk(p)} else {}
  {
    forall j: nat | j < |s| ensures BlkOf(g, p, j) == g.Blk(p) {
      g.Along(p, j);
    }
    hide Geo.Blk, Geo.Off, Disk.Known, BlkOf;
    if s != Zeros(|s|) {
      var j: nat :| j < |s| && s[j] != 0;
      assert Counts(g, u, p, s, j);
    }
    if u.Known(g.Blk(p)) {
      assert BlkOf(g, p, 0) == g.Blk(p) && Counts(g, u, p, s, 0);
    }
  }

  /** The blocks held got more, and if any of those is new the footer was packed. */
  ghost predicate Grown(h: set<nat>, ft: seq<Byte>, h': set<nat>, ft': seq<Byte>, more: set<nat>) {
    |ft| == 512 && h' == h + more && ft' == if h' == h then ft else Packed(ft)
  }

  lemma GrownMore(h: set<nat>, ft: seq<Byte>, h1: set<nat>, ft1: seq<Byte>, h2: set<nat>, ft2: seq<Byte>, m1: set<nat>,
      m2: set<nat>)
    requires Grown(h, ft, h1, ft1, m1) && Grown(h1, ft1, h2, ft2, m2)
    ensures Grown(h, ft, h2, ft2, m1 + m2)
  {
    PackedTwice(ft);
    hide Packed;
  }

  /** The container opens again as before if no block is new, and else exactly if its footer carried its checksum. */
  lemma GrownOpens(d: seq<Byte>, d': seq<Byte>, h: set<nat>, h': set<nat>, more: set<nat>)
    requires Kin(d) && Lead(d') == Lead(d) && Grown(h, Trail(d), h', Trail(d'), more)
    ensures Twins(d') <==> if more <= h then Twins(d) else CarriesChecksum(Lead(d), CHECKSUM)
  {
    KinPacked(d);
    PackedExactly(Lead(d));
    hide Packed, CarriesChecksum;
    assert h' == h <==> more <= h;
  }

  /** A block for a piece inside it: there already, added, or left virtual. */
  lemma GrownOne(g: Geo, u: Disk, p: nat, s: seq<Byte>, h: set<nat>, ft: seq<Byte>, h': set<nat>, ft': seq<Byte>)
    requires g.block > 0 && |s| > 0 && g.Off(p) + |s| <= g.block && |ft| == 512
    requires g.Blk(p) in h || (!u.Known(g.Blk(p)) && s == Zeros(|s|)) ==> h' == h && ft' == ft
    requires !(g.Blk(p) in h || (!u.Known(g.Blk(p)) && s == Zeros(|s|))) ==> h' == h + {g.Blk(p)} && ft' == Packed(ft)
    ensures Grown(h, ft, h', ft', Needed(g, u, p, s))
  {
    hide Packed, Geo.Blk, Geo.Off, Needed, Disk.Known;
    NeededOne(g, u, p, s);
  }

  // ---- which bytes the edges of a write leave to what is there ----

  /** In a dynamic image the bytes of unmarked sectors are zeros already. */
  lemma BlankReady(a: Layer, i: nat, from: nat, n: nat, off: nat, len: nat)
    requires a.Blank() && i < a.g.entries && a.Has(i)
    ensures Ready(a, Nothing, i, from, n, off, len)
  {
    assert a.BlankIn(i);
    hide Layer.Has, Layer.Cell, Layer.BitOf;
    forall o {:trigger a.Cell(i, o)} | 0 <= o < a.g.block && from <= o / 512 < from + n && !(off <= o < off + len)
      ensures a.Cell(i, o) == Over(a, Nothing).Shows(a.g.Pos(i, o))
    {
      ShowsIn(a, Nothing, i, o);
    }
  }

  /** Once a sector is marked, its bytes are what the disk shows. */
  lemma MarkedReady(a: Layer, u: Disk, i: nat, off: nat, len: nat)
    requires a.Has(i) && len > 0
    requires off % 512 != 0 ==> a.BitOf(i, off / 512)
    requires (off + len) % 512 != 0 ==> a.BitOf(i, (off + len - 1) / 512)
    ensures Ready(a, u, i, off / 512, (off + len - 1) / 512 - off / 512 + 1, off, len)
  {
    var from, n := off / 512, (off + len - 1) / 512 - off / 512 + 1;
    forall o {:trigger a.Cell(i, o)} | 0 <= o < a.g.block && from <= o / 512 < from + n && !(off <= o < off + len)
      ensures a.Cell(i, o) == Over(a, u).Shows(a.g.Pos(i, o))
    {
      EdgeSector(off, len, o);
      ShowsIn(a, u, i, o);
    }
  }

  lemma EdgeSector(off: nat, len: nat, o: nat)
    requires len > 0 && off / 512 <= o / 512 <= (off + len - 1) / 512 && !(off <= o < off + len)
    ensures o < off ==> o / 512 == off / 512 && off % 512 != 0
    ensures o >= off + len ==> o / 512 == (off + len - 1) / 512 && (off + len) % 512 != 0
  {
  }
}
