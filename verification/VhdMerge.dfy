/** Merging a differencing image into its parent, sector by sector. */
module VhdMerge {
  import opened Bytes
  import opened VhdFooter
  import opened VhdLayers
  import opened VhdSteps
  import opened VhdReads
  import opened VhdWrites

  /** Position p lies before sector j of block i. */
  predicate Before(g: Geo, p: nat, i: nat, j: nat) {
    g.Blk(p) < i || (g.Blk(p) == i && g.Off(p) / 512 < j)
  }

  /** Up to sector j of block i the parent pk shows what the child k showed, and from there on what it did itself. */
  ghost predicate Merged(k: Disk, pk: Disk, i: nat, j: nat) {
    && k.Over? && pk.Over? && pk.top.g.size == k.top.g.size
    && forall p {:trigger pk.Shows(p)} :: 0 <= p < k.top.g.size ==>
         pk.Shows(p) == if Before(k.top.g, p, i, j) then k.Shows(p) else k.under.Shows(p)
  }

  lemma MergeStart(k: Disk)
    requires k.Over? && k.under.Over? && k.under.top.g.size == k.top.g.size
    ensures Merged(k, k.under, 0, 0)
  {
  }

  /** A sector the child does not hold shows through. */
  lemma MergeAbsent(k: Disk, pk: Disk, i: nat, j: nat)
    requires Merged(k, pk, i, j) && (!k.top.Has(i) || !k.top.BitOf(i, j))
    ensures Merged(k, pk, i, j + 1)
  {
    hide Layer.BitOf, Layer.Cell, BE32, Geo.Blk, Geo.Off;
    forall p {:trigger pk.Shows(p)} | 0 <= p < k.top.g.size
      ensures pk.Shows(p) == if Before(k.top.g, p, i, j + 1) then k.Shows(p) else k.under.Shows(p)
    {
    }
  }

  lemma InSector(g: Geo, i: nat, j: nat, p: nat)
    requires g.block > 0 && 512 * j + 512 <= g.block
    ensures g.Pos(i, 512 * j) <= p < g.Pos(i, 512 * j) + 512 <==> g.Blk(p) == i && g.Off(p) / 512 == j
  {
    if g.Pos(i, 512 * j) <= p < g.Pos(i, 512 * j) + 512 {
      g.Join(i, 512 * j + (p - g.Pos(i, 512 * j)));
    } else {
      g.Split(p);
    }
  }

  /** A sector the child holds, copied into the parent. */
  lemma MergeCopied(k: Disk, pk: Disk, pk': Disk, i: nat, j: nat, s: seq<Byte>)
    requires Merged(k, pk, i, j) && k.top.Has(i) && k.top.BitOf(i, j)
    requires k.top.g.block > 0 && 512 * j + 512 <= k.top.g.block
    requires IsSector(k.top, i, j, s)
    requires Wrote(pk, pk', k.top.g.Pos(i, 512 * j), s)
    ensures Merged(k, pk', i, j + 1)
  {
    forall p {:trigger pk'.Shows(p)} | 0 <= p < k.top.g.size
      ensures pk'.Shows(p) == if Before(k.top.g, p, i, j + 1) then k.Shows(p) else k.under.Shows(p)
    {
      MergeCopiedAt(k, pk, pk', i, j, s, p);
    }
  }

  lemma MergeCopiedAt(k: Disk, pk: Disk, pk': Disk, i: nat, j: nat, s: seq<Byte>, p: nat)
    requires Merged(k, pk, i, j) && k.top.Has(i) && k.top.BitOf(i, j) && p < k.top.g.size
    requires k.top.g.block > 0 && 512 * j + 512 <= k.top.g.block
    requires IsSector(k.top, i, j, s)
    requires Wrote(pk, pk', k.top.g.Pos(i, 512 * j), s)
    ensures pk'.Shows(p) == if Before(k.top.g, p, i, j + 1) then k.Shows(p) else k.under.Shows(p)
  {
    hide Layer.BitOf, Layer.Cell, BE32, Geo.Blk, Geo.Off, Geo.Pos, Disk.Shows;
    var g := k.top.g;
    InSector(g, i, j, p);
    assert pk.Shows(p) == if Before(g, p, i, j) then k.Shows(p) else k.under.Shows(p);
    if g.Blk(p) == i && g.Off(p) / 512 == j {
      g.Split(p);
      PosPlus(g, i, 512 * j, g.Off(p) - 512 * j);
      ShowsIn(k.top, k.under, i, g.Off(p));
      assert s[p - g.Pos(i, 512 * j)] == k.top.Cell(i, g.Off(p));
      assert k == Over(k.top, k.under);
    }
  }

  lemma MergeNext(k: Disk, pk: Disk, i: nat, j: nat)
    requires Merged(k, pk, i, j) && k.top.g.block > 0
    requires forall o {:trigger o / 512} :: 0 <= o < k.top.g.block ==> o / 512 < j
    ensures Merged(k, pk, i + 1, 0)
  {
    hide Disk.Shows, Geo.Blk, Geo.Off;
    forall p {:trigger pk.Shows(p)} | 0 <= p < k.top.g.size
      ensures pk.Shows(p) == if Before(k.top.g, p, i + 1, 0) then k.Shows(p) else k.under.Shows(p)
    {
      assert k.top.g.Off(p) / 512 < j;
    }
  }

  /** A block the child does not hold shows through as a whole. */
  lemma MergeSkip(k: Disk, pk: Disk, i: nat)
    requires Merged(k, pk, i, 0) && !k.top.Has(i)
    ensures Merged(k, pk, i + 1, 0)
  {
    hide Layer.BitOf, Layer.Cell, BE32, Geo.Blk, Geo.Off;
    forall p {:trigger pk.Shows(p)} | 0 <= p < k.top.g.size
      ensures pk.Shows(p) == if Before(k.top.g, p, i + 1, 0) then k.Shows(p) else k.under.Shows(p)
    {
    }
  }

  lemma MergeEnd(k: Disk, pk: Disk)
    requires k.Over? && Merged(k, pk, k.top.g.entries, 0) && k.top.g.Valid()
    ensures pk.View() == k.View()
  {
    Positive(k.top.g);
    forall p | 0 <= p < k.top.g.size ensures pk.View()[p] == k.View()[p] {
      k.top.g.Inside(p);
      ViewAt(k, p);
      ViewAt(pk, p);
      assert pk.Shows(p) == k.Shows(p);
    }
  }

  // ---- which blocks the parent gets, and whether it can be opened for the next ----

  /** A marked sector of the child that the parent cannot leave virtual. */
  ghost predicate Weighs(k: Disk, i: nat, j: nat)
    requires k.Over? && k.under.Over?
  {
    k.top.BitOf(i, j) && (k.under.under.Known(i) || !BlankSector(k.top, i, j))
  }

  ghost predicate BlankSector(a: Layer, i: nat, j: nat) {
    forall o {:trigger a.Cell(i, o)} :: 512 * j <= o < 512 * j + 512 ==> a.Cell(i, o) == 0
  }

  /** One of the first n sectors of the block weighs. */
  ghost predicate Wanted(k: Disk, i: nat, n: nat)
    requires k.Over? && k.under.Over?
  {
    exists j: nat {:trigger Weighs(k, i, j)} :: j < n && Weighs(k, i, j)
  }

  ghost function WantedSet(k: Disk, i: nat, n: nat): set<nat>
    requires k.Over? && k.under.Over?
  {
    if Wanted(k, i, n) then {i} else {}
  }

  /** The blocks the parent holds for sure once the first n have been merged. */
  ghost function Received(k: Disk, n: nat): set<nat>
    requires k.Over? && k.under.Over?
  {
    if n == 0 then {}
    else Received(k, n - 1) + if k.top.Has(n - 1) then WantedSet(k, n - 1, 8 * k.top.g.Bm()) else {}
  }

  /** The same once j sectors of block i have been merged as well. */
  ghost function Taken(k: Disk, i: nat, j: nat): set<nat>
    requires k.Over? && k.under.Over?
  {
    Received(k, i) + WantedSet(k, i, j)
  }

  lemma TakenMore(k: Disk, i: nat, j: nat)
    requires k.Over? && k.under.Over?
    ensures Taken(k, i, 0) == Received(k, i)
    ensures Taken(k, i, j + 1) == Taken(k, i, j) + if Weighs(k, i, j) then {i} else {}
    ensures !k.top.BitOf(i, j) ==> !Weighs(k, i, j)
  {
    hide Received, Layer.BitOf;
  }

  lemma TakenNext(k: Disk, i: nat)
    requires k.Over? && k.under.Over?
    ensures Taken(k, i + 1, 0) == if k.top.Has(i) then Taken(k, i, 8 * k.top.g.Bm()) else Taken(k, i, 0)
  {
    hide Weighs;
  }

  /** The parent, b now, has got those blocks, and its footer is packed if one of them is new. */
  ghost predicate Took(k: Disk, b: Layer, more: set<nat>)
    requires k.Over? && k.under.Over?
  {
    && Grown(k.under.top.Held(), Trail(k.under.top.d), b.Held(), Trail(b.d), more)
    && Lead(b.d) == Lead(k.under.top.d) && Kin(k.under.top.d)
  }

  lemma TookNothing(k: Disk)
    requires k.Valid() && k.Over? && k.under.Over?
    ensures Took(k, k.under.top, Taken(k, 0, 0))
  {
    hide Weighs, Packed, Layer.Held;
    assert k.under.top.Sealed();
  }

  lemma TookMore(k: Disk, b: Layer, b': Layer, i: nat, j: nat)
    requires k.Over? && k.under.Over? && Took(k, b, Taken(k, i, j)) && Lead(b'.d) == Lead(b.d)
    requires Grown(b.Held(), Trail(b.d), b'.Held(), Trail(b'.d), if Weighs(k, i, j) then {i} else {})
    ensures Took(k, b', Taken(k, i, j + 1))
  {
    hide Layer.Held, Packed, Taken, Weighs, Kin;
    TakenMore(k, i, j);
    GrownMore(k.under.top.Held(), Trail(k.under.top.d), b.Held(), Trail(b.d), b'.Held(), Trail(b'.d), Taken(k, i, j),
      if Weighs(k, i, j) then {i} else {});
  }

  /** What writing the sector to the parent needs there. */
  lemma SectorNeeded(k: Disk, g: Geo, i: nat, j: nat, s: seq<Byte>)
    requires k.Over? && k.under.Over? && k.top.BitOf(i, j) && IsSector(k.top, i, j, s)
    requires g.block == k.top.g.block > 0 && 512 * j + 512 <= g.block
    ensures Needed(g, k.under.under, g.Pos(i, 512 * j), s) == if Weighs(k, i, j) then {i} else {}
  {
    hide Layer.BitOf, Layer.Cell, Disk.Known, Geo.Pos, Geo.Blk, Geo.Off, Needed;
    g.Join(i, 512 * j);
    NeededOne(g, k.under.under, g.Pos(i, 512 * j), s);
    if BlankSector(k.top, i, j) {
      assert forall o :: 0 <= o < 512 ==> s[o] == k.top.Cell(i, 512 * j + o);
      assert s == Zeros(512);
    } else {
      var o :| 512 * j <= o < 512 * j + 512 && k.top.Cell(i, o) != 0;
      assert s[o - 512 * j] == k.top.Cell(i, 512 * j + (o - 512 * j));
    }
  }

  /** The parent cannot be opened for block i of the child: it never could, or a block it got since has changed its
      footer, which did not carry its checksum. */
  ghost predicate Stuck(k: Disk, i: nat)
    requires k.Over? && k.under.Over?
  {
    && i < k.top.g.entries && k.top.Has(i)
    && (!k.under.Opens() ||
        (!(Received(k, i) <= k.under.top.Held()) && !CarriesChecksum(Lead(k.under.top.d), CHECKSUM)))
  }

  lemma {:induction false} ReceivedNone(k: Disk, n: nat)
    requires k.Over? && k.under.Over? && forall i: nat {:trigger k.top.Has(i)} :: i < n ==> !k.top.Has(i)
    ensures Received(k, n) == {}
  {
    if n > 0 {
      assert !k.top.Has(n - 1);
      ReceivedNone(k, n - 1);
    }
  }

  /** Whether the parent opens when block i is its turn. */
  lemma StuckHere(k: Disk, b: Layer, i: nat)
    requires k.Over? && k.under.Over? && i < k.top.g.entries && k.top.Has(i) && Took(k, b, Taken(k, i, 0))
    requires forall j: nat {:trigger Stuck(k, j)} :: j < i ==> !Stuck(k, j)
    ensures Stuck(k, i) <==> !Over(b, k.under.under).Opens()
  {
    hide Layer.Has, Layer.Held, Packed, CarriesChecksum, Taken;
    TakenMore(k, i, 0);
    var d0 := k.under.top.d;
    if !k.under.Opens() {
      forall j: nat {:trigger k.top.Has(j)} | j < i ensures !k.top.Has(j) {
        assert !Stuck(k, j);
      }
      ReceivedNone(k, i);
    }
    KinPacked(d0);
    if Trail(b.d) == Packed(Lead(b.d)) {
      TwinsExactly(b.d);
    }
    PackedExactly(Lead(d0));
  }

  // ---- how much was copied ----

  /** Marked sectors among the first j of a block. */
  ghost function SectorsIn(a: Layer, i: nat, j: nat): nat {
    if j == 0 then 0 else SectorsIn(a, i, j - 1) + if a.BitOf(i, j - 1) then 1 else 0
  }

  /** Marked sectors in the first n blocks, and the blocks that have one. */
  ghost function SectorsUpTo(a: Layer, n: nat): nat {
    if n == 0 then 0 else SectorsUpTo(a, n - 1) + if a.Has(n - 1) then SectorsIn(a, n - 1, 8 * a.g.Bm()) else 0
  }

  ghost function BlocksUpTo(a: Layer, n: nat): nat {
    if n == 0 then 0 else BlocksUpTo(a, n - 1) + if a.Has(n - 1) && SectorsIn(a, n - 1, 8 * a.g.Bm()) > 0 then 1 else 0
  }

  /** The bytes of sector j of block i. */
  ghost predicate IsSector(a: Layer, i: nat, j: nat, s: seq<Byte>) {
    |s| == 512 && forall o {:trigger s[o]} :: 0 <= o < 512 ==> s[o] == a.Cell(i, 512 * j + o)
  }

  /** A marked sector lies on the disk and in its block. */
  lemma MarkedSector(a: Layer, i: nat, j: nat)
    requires a.Layout() && i < a.g.entries && a.Has(i) && j < 8 * a.g.Bm() && a.BitOf(i, j)
    ensures 512 * j + 512 <= a.g.block && a.g.Pos(i, 512 * j) + 512 <= a.g.size
    ensures IsSector(a, i, j, ReadAt(a.d, a.Base(i) + a.g.Bm() + j * 512, 512))
  {
    hide Layer.Layout, Layer.BitOf, BE32, ReadAt, Geo.Pos;
    WasMarked(a, i);
    LayoutFramed(a);
    BlockFits(a, i);
    WholeDisk(a.g, i, j);
    SectorRead(a, i, j);
  }

  lemma SectorRead(a: Layer, i: nat, j: nat)
    requires a.Base(i) + a.g.Bm() + 512 * j + 512 <= |a.d|
    ensures IsSector(a, i, j, ReadAt(a.d, a.Base(i) + a.g.Bm() + j * 512, 512))
  {
    hide BE32;
  }

  lemma WholeDisk(g: Geo, i: nat, j: nat)
    requires g.Valid()
    ensures 512 * j < g.block ==> 512 * j + 512 <= g.block
    ensures g.Pos(i, 512 * j) < g.size ==> g.Pos(i, 512 * j) + 512 <= g.size
  {
    WholeGeo(g);
    hide Geo.Valid;
    Sectors(i, g.block);
    var b := i * g.block;
    assert g.Pos(i, 512 * j) == b + 512 * j;
    WholeSectors(j);
    Multiple(g.block, 512 * j);
    SumSectors(b, 512 * j);
    Multiple(g.size, b + 512 * j);
  }

  lemma SumSectors(a: nat, b: nat)
    requires a % 512 == 0 && b % 512 == 0
    ensures (a + b) % 512 == 0
  {
  }

  lemma Multiple(a: nat, b: nat)
    requires a % 512 == 0 && b % 512 == 0
    ensures b < a ==> b + 512 <= a
  {
  }
}
