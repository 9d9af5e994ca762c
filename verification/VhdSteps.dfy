/** What each change of a VHD container does to its layout and to the disk it shows. */
module VhdSteps {
  import opened Bytes
  import opened BlockBitmaps
  import opened VhdFooter
  import opened VhdLayers

  /** Two containers that agree on where a block is and on one of its bytes. */
  lemma ShownKept(a: Layer, b: Layer, p: nat, under: Byte)
    requires a.g == b.g && b.Entry(a.g.Blk(p)) == a.Entry(a.g.Blk(p))
    requires a.Has(a.g.Blk(p)) ==> b.BitOf(a.g.Blk(p), a.g.Off(p) / 512) == a.BitOf(a.g.Blk(p), a.g.Off(p) / 512)
    requires a.Has(a.g.Blk(p)) ==> b.Cell(a.g.Blk(p), a.g.Off(p)) == a.Cell(a.g.Blk(p), a.g.Off(p))
    ensures b.Shown(p, under) == a.Shown(p, under)
  {
  }

  /** Block i of b lies where it does in a and holds the same bytes. */
  ghost predicate SameBlock(a: Layer, b: Layer, i: nat) {
    && b.Entry(i) == a.Entry(i)
    && (a.Has(i) ==> forall k {:trigger At(b.d, k)} :: a.Base(i) <= k < a.Base(i) + a.g.Raw() ==> At(b.d, k) == At(a.d, k))
  }

  lemma SameBlockBits(a: Layer, b: Layer, i: nat, sec: nat)
    requires a.g == b.g && SameBlock(a, b, i) && a.Has(i) && sec < 8 * a.g.Bm()
    ensures b.BitOf(i, sec) == a.BitOf(i, sec)
  {
    hide IsSet, BE32;
    assert At(b.d, a.Base(i) + sec / 8) == At(a.d, a.Base(i) + sec / 8);
  }

  lemma SameBlockCells(a: Layer, b: Layer, i: nat, o: nat)
    requires a.g == b.g && SameBlock(a, b, i) && a.Has(i) && o < a.g.block
    ensures b.Cell(i, o) == a.Cell(i, o)
  {
    hide BE32;
    assert At(b.d, a.Base(i) + a.g.Bm() + o) == At(a.d, a.Base(i) + a.g.Bm() + o);
  }

  lemma SectorInMap(g: Geo, o: nat)
    requires g.Valid() && o < g.block
    ensures o / 512 < 8 * g.Bm()
  {
  }

  lemma SameBlockShown(a: Layer, b: Layer, p: nat, under: Byte)
    requires a.g == b.g && a.g.Valid() && SameBlock(a, b, a.g.Blk(p))
    ensures b.Shown(p, under) == a.Shown(p, under)
  {
    hide SameBlock, Layer.BitOf, Layer.Cell, Geo.Valid, Geo.Blk, Geo.Off;
    if a.Has(a.g.Blk(p)) {
      Positive(a.g);
      SectorInMap(a.g, a.g.Off(p));
      SameBlockBits(a, b, a.g.Blk(p), a.g.Off(p) / 512);
      SameBlockCells(a, b, a.g.Blk(p), a.g.Off(p));
    }
    SameEntry(a, b, a.g.Blk(p));
    ShownKept(a, b, p, under);
  }

  lemma SameEntry(a: Layer, b: Layer, i: nat)
    requires SameBlock(a, b, i)
    ensures b.Entry(i) == a.Entry(i)
  {
  }

  lemma Positive(g: Geo)
    requires g.Valid()
    ensures g.block > 0
  {
  }

  lemma WholeGeo(g: Geo)
    requires g.Valid()
    ensures g.block % 512 == 0 && g.size % 512 == 0
  {
  }

  lemma SameBlockMarked(a: Layer, b: Layer, i: nat)
    requires a.g == b.g && SameBlock(a, b, i) && a.Has(i) && a.Marked(i)
    ensures b.Marked(i)
  {
    hide SameBlock, Layer.BitOf, Layer.Has;
    forall sec | 0 <= sec < 8 * b.g.Bm() && b.BitOf(i, sec)
      ensures 512 * sec < b.g.block && b.g.Pos(i, 512 * sec) < b.g.size
    {
      SameBlockBits(a, b, i, sec);
    }
  }

  lemma SameBlockBlank(a: Layer, b: Layer, i: nat)
    requires a.g == b.g && a.g.Valid() && SameBlock(a, b, i) && a.Has(i) && a.BlankIn(i)
    ensures b.BlankIn(i)
  {
    hide SameBlock, Layer.BitOf, Layer.Has, Layer.Cell;
    forall o | 0 <= o < b.g.block && !b.BitOf(i, o / 512)
      ensures b.Cell(i, o) == 0
    {
      SectorInMap(a.g, o);
      SameBlockBits(a, b, i, o / 512);
      SameBlockCells(a, b, i, o);
    }
  }

  /** Only the bytes of block i (its bitmap and its data) may differ. */
  ghost predicate Touched(a: Layer, b: Layer, i: nat) {
    && b.g == a.g && b.start == a.start && |b.d| == |a.d|
    && forall k {:trigger At(b.d, k)} :: k < a.Base(i) || k >= a.Base(i) + a.g.Raw() ==> At(b.d, k) == At(a.d, k)
  }

  lemma TouchedEntry(a: Layer, b: Layer, i: nat, j: nat)
    requires a.Layout() && Touched(a, b, i) && i < a.g.entries && j < a.g.entries && a.Has(i)
    ensures b.Entry(j) == a.Entry(j)
  {
    hide Layer.Disjoint, Layer.AllMarked, Layer.Used;
    assert a.Base(i) >= a.start >= a.Slot(j) + 4;
  }

  lemma TouchedHeld(a: Layer, b: Layer, i: nat)
    requires a.Layout() && Touched(a, b, i) && i < a.g.entries && a.Has(i)
    ensures b.Held() == a.Held()
  {
    hide Layer.Layout, BE32, Layer.Base;
    forall j | 0 <= j < a.g.entries ensures b.Has(j) <==> a.Has(j) {
      TouchedEntry(a, b, i, j);
    }
  }

  lemma TouchedOther(a: Layer, b: Layer, i: nat, j: nat)
    requires a.Layout() && Touched(a, b, i) && i < a.g.entries && j < a.g.entries && i != j && a.Has(i)
    ensures SameBlock(a, b, j)
  {
    TouchedEntry(a, b, i, j);
    hide BE32, Layer.AllMarked, Layer.Framed;
    if a.Has(j) {
      assert a.Base(i) + a.g.Raw() <= a.Base(j) || a.Base(j) + a.g.Raw() <= a.Base(i);
    }
  }

  lemma {:induction false} SameUsed(a: Layer, b: Layer, n: nat)
    requires forall j :: 0 <= j < n ==> b.Entry(j) == a.Entry(j)
    ensures b.Used(n) == a.Used(n)
  {
    if n > 0 {
      SameUsed(a, b, n - 1);
    }
  }

  /** A change inside one block keeps the layout if the marks of that block stay on the disk. */
  lemma TouchedLayout(a: Layer, b: Layer, i: nat)
    requires a.Layout() && Touched(a, b, i) && i < a.g.entries && a.Has(i) && b.Marked(i)
    ensures b.Layout() && Kind(b.d) == Kind(a.d)
  {
    hide Layer.Marked, Layer.Used, BE32, SameBlock, Geo.Valid;
    forall j | 0 <= j < a.g.entries ensures b.Entry(j) == a.Entry(j) {
      TouchedEntry(a, b, i, j);
    }
    SameUsed(a, b, a.g.entries);
    BlockFits(a, i);
    TouchedTitles(a, b, i);
    assert b.Padded();
    hide Layer.Padded, Layer.Sealed;
    forall j {:trigger b.Has(j)} | 0 <= j < a.g.entries && b.Has(j) ensures b.Marked(j) {
      if j != i {
        TouchedOther(a, b, i, j);
        assert a.Has(j);
        SameBlockMarked(a, b, j);
      }
    }
    TouchedPlaces(a, b);
  }

  lemma TouchedPlaces(a: Layer, b: Layer)
    requires a.g == b.g && a.start == b.start && |a.d| == |b.d| && a.Placed() && a.Disjoint()
    requires forall j {:trigger b.Entry(j)} :: 0 <= j < a.g.entries ==> b.Entry(j) == a.Entry(j)
    ensures b.Placed() && b.Disjoint()
  {
    hide Layer.Entry;
    forall i, j {:trigger b.Has(i), b.Has(j)} | 0 <= i < b.g.entries && 0 <= j < b.g.entries && i != j && b.Has(i) && b.Has(j)
      ensures b.Base(i) + b.g.Raw() <= b.Base(j) || b.Base(j) + b.g.Raw() <= b.Base(i)
    {
      assert a.Has(i) && a.Has(j);
    }
    forall i {:trigger b.Has(i)} | 0 <= i < b.g.entries && b.Has(i)
      ensures b.start <= b.Base(i) && b.Base(i) + b.g.Raw() <= |b.d| - 512
    {
      assert a.Has(i);
    }
  }

  lemma TouchedBlank(a: Layer, b: Layer, i: nat)
    requires a.Layout() && a.Blank() && Touched(a, b, i) && i < a.g.entries && a.Has(i) && b.BlankIn(i)
    ensures b.Blank()
  {
    hide Layer.BlankIn, Layer.Used, BE32, SameBlock;
    forall j {:trigger b.Has(j)} | 0 <= j < b.g.entries && b.Has(j) ensures b.BlankIn(j) {
      if j != i {
        TouchedOther(a, b, i, j);
        TouchedEntry(a, b, i, j);
        assert a.Has(j);
        SameBlockBlank(a, b, j);
      }
    }
  }

  /** Headers and footer of b are those of a. */
  ghost predicate SameTitles(a: Layer, b: Layer) {
    && (forall k {:trigger At(b.d, k)} :: 0 <= k < 1536 ==> At(b.d, k) == At(a.d, k))
    && (forall k {:trigger Foot(b.d, k)} :: 0 <= k < 512 ==> Foot(b.d, k) == Foot(a.d, k))
  }

  lemma SameSectors(a: Layer, b: Layer)
    requires SameTitles(a, b)
    ensures Lead(b.d) == Lead(a.d) && Trail(b.d) == Trail(a.d)
  {
  }

  lemma TitlesKept(a: Layer, b: Layer)
    requires a.Sealed() && a.g == b.g && SameTitles(a, b)
    ensures b.Sealed() && Kind(b.d) == Kind(a.d)
  {
    hide At;
    assert GeoIn(b.d) == GeoIn(a.d);
    SameSectors(a, b);
  }

  lemma TouchedTitles(a: Layer, b: Layer, i: nat)
    requires a.Framed() && a.Sealed() && Touched(a, b, i)
    requires a.start <= a.Base(i) && a.Base(i) + a.g.Raw() <= |a.d| - 512
    ensures b.Sealed() && Kind(b.d) == Kind(a.d)
  {
    assert 1536 <= a.Base(i);
    hide Layer.Base, Layer.Sealed, At, Layer.Framed;
    TitlesKept(a, b);
  }

  // ---- allocating a block ----

  lemma {:induction false} UsedBound(a: Layer, i: nat, n: nat)
    ensures a.Used(n) <= n
    ensures i < n && !a.Has(i) ==> a.Used(n) < n
  {
    if n > 0 {
      UsedBound(a, i, n - 1);
    }
  }

  lemma Sectors(n: nat, m: nat)
    requires m % 512 == 0
    ensures n * m % 512 == 0
  {
    var q := m / 512;
    assert n * m == 512 * (n * q) by {
      Assoc(n, q);
    }
    WholeSectors(n * q);
  }

  lemma Assoc(n: nat, q: nat)
    ensures n * (512 * q) == 512 * (n * q)
  {
  }

  lemma WholeSectors(x: nat)
    ensures 512 * x % 512 == 0
  {
  }

  lemma FooterBounds(len: nat, start: nat, used: nat, entries: nat, raw: nat)
    requires start % 512 == 0 && raw % 512 == 0 && raw >= 512 && used < entries
    requires len == start + 512 + used * raw && start + entries * raw <= 512 * UNUSED
    ensures len % 512 == 0 && (len - 512) / 512 < UNUSED && len - 512 + raw <= start + entries * raw
  {
    Sectors(used, raw);
    Mono(used + 1, entries, raw);
    Times(used, raw);
  }

  /** The trailing footer starts on a sector a table entry can name. */
  lemma FooterSector(a: Layer, i: nat)
    requires a.Framed() && i < a.g.entries && !a.Has(i)
    ensures |a.d| >= 512 + a.start && |a.d| % 512 == 0 && (|a.d| - 512) / 512 < UNUSED
    ensures |a.d| - 512 + a.g.Raw() <= a.start + a.g.entries * a.g.Raw()
  {
    hide Layer.Has;
    UsedBound(a, i, a.g.entries);
    hide Layer.Used;
    RawSectors(a.g);
    hide Geo.Raw, Geo.Valid;
    FooterBounds(|a.d|, a.start, a.Used(a.g.entries), a.g.entries, a.g.Raw());
  }

  lemma RawSectors(g: Geo)
    requires g.Valid()
    ensures g.Raw() % 512 == 0 && g.Raw() >= 1024
  {
  }

  /** b is a with an empty block i where the footer of a was, and the footer after it, packed. */
  ghost predicate Appended(a: Layer, b: Layer, i: nat) {
    && b.g == a.g && b.start == a.start && |a.d| >= 512 && |b.d| == |a.d| + a.g.Raw()
    && b.Entry(i) == (|a.d| - 512) / 512
    && (forall k {:trigger At(b.d, k)} :: k < |a.d| - 512 && !(a.Slot(i) <= k < a.Slot(i) + 4) ==> At(b.d, k) == At(a.d, k))
    && (forall k {:trigger At(b.d, k)} :: |a.d| - 512 <= k < |a.d| - 512 + a.g.Raw() ==> At(b.d, k) == 0)
    && Trail(b.d) == Packed(Trail(a.d))
  }

  lemma AppendedEntry(a: Layer, b: Layer, i: nat, j: nat)
    requires a.Framed() && Appended(a, b, i) && i < a.g.entries && j < a.g.entries && i != j
    ensures b.Entry(j) == a.Entry(j)
  {
    TableBeforeBlocks(a, j);
    hide Layer.Framed;
  }

  lemma TableBeforeBlocks(a: Layer, j: nat)
    requires a.Framed() && j < a.g.entries
    ensures a.Slot(j) + 4 <= a.start && a.start + 512 <= |a.d|
  {
    Product(a.Used(a.g.entries), a.g.Raw());
  }

  lemma AppendedOther(a: Layer, b: Layer, i: nat, j: nat)
    requires a.Layout() && Appended(a, b, i) && i < a.g.entries && j < a.g.entries && i != j
    ensures SameBlock(a, b, j)
  {
    AppendedEntry(a, b, i, j);
    hide BE32, Layer.AllMarked, Layer.Disjoint;
  }

  lemma AppendedNew(a: Layer, b: Layer, i: nat)
    requires a.Framed() && Appended(a, b, i) && i < a.g.entries && !a.Has(i)
    ensures b.Has(i) && b.Base(i) == |a.d| - 512
    ensures forall sec {:trigger b.BitOf(i, sec)} :: 0 <= sec < 8 * a.g.Bm() ==> !b.BitOf(i, sec)
    ensures b.Marked(i) && b.BlankIn(i)
  {
    FooterSector(a, i);
    hide Layer.Framed, Layer.Used, IsSet, BE32;
    forall sec | 0 <= sec < 8 * a.g.Bm() ensures !b.BitOf(i, sec) {
      assert At(b.d, b.Base(i) + sec / 8) == 0;
      NoBits(sec % 8);
    }
    forall o | 0 <= o < b.g.block ensures b.Cell(i, o) == 0 {
    }
  }

  lemma NoBits(k: nat)
    requires k < 8
    ensures !IsSet(MsbFirst, [0], k)
  {
  }

  lemma {:induction false} OneMoreUsed(a: Layer, b: Layer, i: nat, n: nat)
    requires forall j :: 0 <= j < n && j != i ==> b.Entry(j) == a.Entry(j)
    requires !a.Has(i) && b.Has(i)
    ensures b.Used(n) == a.Used(n) + if i < n then 1 else 0
  {
    if n > 0 {
      OneMoreUsed(a, b, i, n - 1);
    }
  }

  lemma AppendedHeld(a: Layer, b: Layer, i: nat)
    requires a.Framed() && Appended(a, b, i) && i < a.g.entries && !a.Has(i)
    ensures b.Held() == a.Held() + {i}
  {
    AppendedNew(a, b, i);
    hide BE32, Layer.Framed, Layer.BitOf;
    forall j | 0 <= j < a.g.entries && j != i ensures b.Has(j) <==> a.Has(j) {
      AppendedEntry(a, b, i, j);
    }
  }

  lemma AppendedFrame(a: Layer, b: Layer, i: nat)
    requires a.Framed() && Appended(a, b, i) && i < a.g.entries && !a.Has(i)
    ensures b.Framed()
  {
    AppendedNew(a, b, i);
    hide BE32, Layer.BitOf, Geo.Valid, Layer.BlankIn, Layer.Marked;
    forall j | 0 <= j < a.g.entries && j != i ensures b.Entry(j) == a.Entry(j) {
      AppendedEntry(a, b, i, j);
    }
    OneMoreUsed(a, b, i, a.g.entries);
    Times(a.Used(a.g.entries), a.g.Raw());
  }

  lemma Times(n: nat, m: nat)
    ensures (n + 1) * m == n * m + m
  {
  }

  lemma AppendedPlaces(a: Layer, b: Layer, i: nat)
    requires a.Layout() && Appended(a, b, i) && i < a.g.entries && !a.Has(i)
    ensures b.Placed() && b.Disjoint()
  {
    hide BE32, Layer.BitOf, Layer.BlankIn, Layer.Marked;
    AppendedNew(a, b, i);
    FooterSector(a, i);
    forall j | 0 <= j < a.g.entries && j != i ensures b.Entry(j) == a.Entry(j) {
      AppendedEntry(a, b, i, j);
    }
    forall j | 0 <= j < a.g.entries && b.Has(j) ensures j == i || a.Has(j) {
    }
  }

  lemma AppendedTitles(a: Layer, b: Layer, i: nat)
    requires a.Framed() && a.Sealed() && Appended(a, b, i) && i < a.g.entries
    ensures b.Sealed() && Kind(b.d) == Kind(a.d)
    ensures Lead(b.d) == Lead(a.d) && Trail(b.d) == Packed(Lead(a.d))
  {
    hide Layer.Slot, Layer.Entry, Foot, Packed, Lead, Trail, At, BE32, BE64;
    TableBeforeBlocks(a, i);
    assert 1536 <= a.Slot(i) by { SlotsPastTitles(a, i); }
    hide Layer.Framed;
    SameFront(a.d, b.d);
    KinPacked(a.d);
  }

  lemma SlotsPastTitles(a: Layer, i: nat)
    requires a.Framed()
    ensures 1536 <= a.Slot(i)
  {
  }

  lemma SameFront(d: seq<Byte>, d': seq<Byte>)
    requires forall k {:trigger At(d', k)} :: 0 <= k < 1536 ==> At(d', k) == At(d, k)
    ensures Lead(d') == Lead(d) && GeoIn(d') == GeoIn(d) && Kind(d') == Kind(d)
  {
    hide At;
  }

  /** A container that got a block can be opened again exactly if its footer carried its checksum. */
  lemma AppendedOpens(a: Layer, b: Layer, i: nat)
    requires a.Framed() && a.Sealed() && Appended(a, b, i) && i < a.g.entries
    ensures Twins(b.d) <==> CarriesChecksum(Lead(a.d), CHECKSUM)
  {
    AppendedTitles(a, b, i);
    hide Layer.Framed, Layer.Sealed, Appended;
    TwinsExactly(b.d);
  }

  lemma AppendedPadded(a: Layer, b: Layer, i: nat)
    requires a.Framed() && a.Padded() && Appended(a, b, i) && i < a.g.entries
    ensures b.Padded()
  {
    TableBeforeBlocks(a, i);
  }

  lemma AppendedLayout(a: Layer, b: Layer, i: nat)
    requires a.Layout() && Appended(a, b, i) && i < a.g.entries && !a.Has(i)
    ensures b.Layout() && Kind(b.d) == Kind(a.d)
    ensures a.Blank() ==> b.Blank()
  {
    AppendedFrame(a, b, i);
    AppendedPlaces(a, b, i);
    AppendedNew(a, b, i);
    AppendedTitles(a, b, i);
    AppendedPadded(a, b, i);
    hide Layer.Padded, Layer.Sealed, Layer.Marked, Layer.BlankIn, BE32, SameBlock, Layer.Placed;
    hide Layer.Disjoint, Layer.Framed;
    forall j {:trigger b.Has(j)} | 0 <= j < b.g.entries && b.Has(j)
      ensures b.Marked(j) && (a.Blank() ==> b.BlankIn(j))
    {
      if j != i {
        AppendedOther(a, b, i, j);
        AppendedEntry(a, b, i, j);
        assert a.Has(j);
        SameBlockMarked(a, b, j);
        if a.Blank() {
          ValidGeo(a);
          SameBlockBlank(a, b, j);
        }
      }
    }
  }

  lemma ValidGeo(a: Layer)
    requires a.Framed()
    ensures a.g.Valid()
  {
  }

  /** A fresh block shows nothing: the disk reads as before. */
  lemma AppendedShown(a: Layer, b: Layer, i: nat, p: nat, under: Byte)
    requires a.Layout() && Appended(a, b, i) && i < a.g.entries && !a.Has(i) && a.g.Blk(p) < a.g.entries
    ensures b.Shown(p, under) == a.Shown(p, under)
  {
    ValidGeo(a);
    if a.g.Blk(p) == i {
      AppendedNew(a, b, i);
      Positive(a.g);
      SectorInMap(a.g, a.g.Off(p));
    } else {
      AppendedOther(a, b, i, a.g.Blk(p));
      SameBlockShown(a, b, p, under);
    }
  }

  // ---- marking sectors of a block and storing bytes in it ----

  /** b is a with n sectors of block i marked from one on, and s stored in it at off. */
  ghost predicate Changed(a: Layer, b: Layer, i: nat, from: nat, n: nat, off: nat, s: seq<Byte>) {
    && Touched(a, b, i)
    && (forall sec {:trigger b.BitOf(i, sec)} :: 0 <= sec < 8 * a.g.Bm() ==>
          (b.BitOf(i, sec) <==> from <= sec < from + n || a.BitOf(i, sec)))
    && (forall o {:trigger b.Cell(i, o)} :: 0 <= o < a.g.block ==>
          b.Cell(i, o) == if off <= o < off + |s| then s[o - off] else a.Cell(i, o))
  }

  /** The container as it will be once the bitmap in memory is written over the one in the file. */
  function Flushed(d: seq<Byte>, base: nat, bmp: seq<Byte>): seq<Byte> { Overwrite(d, base, bmp) }

  lemma FlushedAt(d: seq<Byte>, base: nat, bmp: seq<Byte>, k: int)
    requires base + |bmp| <= |d|
    ensures |Flushed(d, base, bmp)| == |d|
    ensures At(Flushed(d, base, bmp), k) == if base <= k < base + |bmp| then bmp[k - base] else At(d, k)
  {
    AtOverwrite(d, base, bmp, k);
  }

  /** Bytes go to the data area, marks to the bitmap in memory. */
  ghost predicate Edited(d: seq<Byte>, d': seq<Byte>, a: Layer, b: Layer, i: nat, off: nat, s: seq<Byte>,
      bmp: seq<Byte>, bmp': seq<Byte>) {
    && |bmp| == a.g.Bm() && |bmp'| == |bmp| && off + |s| <= a.g.block
    && d' == Overwrite(d, a.Base(i) + a.g.Bm() + off, s)
    && a.d == Flushed(d, a.Base(i), bmp) && |a.d| == |d|
    && b == a.(d := Flushed(d', a.Base(i), bmp'))
  }

  lemma EditedAt(d: seq<Byte>, d': seq<Byte>, a: Layer, b: Layer, i: nat, off: nat, s: seq<Byte>, bmp: seq<Byte>,
      bmp': seq<Byte>, k: int)
    requires Edited(d, d', a, b, i, off, s, bmp, bmp') && a.Base(i) + a.g.Raw() <= |a.d|
    ensures |b.d| == |a.d|
    ensures a.Base(i) <= k < a.Base(i) + a.g.Bm() ==> At(a.d, k) == bmp[k - a.Base(i)] && At(b.d, k) == bmp'[k - a.Base(i)]
    ensures !(a.Base(i) <= k < a.Base(i) + a.g.Bm()) ==>
      At(b.d, k) == if a.Base(i) + a.g.Bm() + off <= k < a.Base(i) + a.g.Bm() + off + |s| then s[k - a.Base(i) - a.g.Bm() - off] else At(a.d, k)
  {
    hide Overwrite, Layer.Entry, Geo.Bm;
    AtOverwrite(d, a.Base(i) + a.g.Bm() + off, s, k);
    FlushedAt(d, a.Base(i), bmp, k);
    FlushedAt(d', a.Base(i), bmp', k);
  }

  lemma EditedTouched(d: seq<Byte>, d': seq<Byte>, a: Layer, b: Layer, i: nat, off: nat, s: seq<Byte>,
      bmp: seq<Byte>, bmp': seq<Byte>)
    requires Edited(d, d', a, b, i, off, s, bmp, bmp') && a.Base(i) + a.g.Raw() <= |a.d|
    ensures Touched(a, b, i)
  {
    hide Flushed, Overwrite, At;
    EditedAt(d, d', a, b, i, off, s, bmp, bmp', 0);
    forall k | k < a.Base(i) || k >= a.Base(i) + a.g.Raw() ensures At(b.d, k) == At(a.d, k) {
      EditedAt(d, d', a, b, i, off, s, bmp, bmp', k);
    }
  }

  lemma BitFromMap(bmp: seq<Byte>, sec: nat)
    requires sec < 8 * |bmp|
    ensures IsSet(MsbFirst, [bmp[sec / 8]], sec % 8) == IsSet(MsbFirst, bmp, sec)
  {
  }

  lemma EditedBits(d: seq<Byte>, d': seq<Byte>, a: Layer, b: Layer, i: nat, off: nat, s: seq<Byte>, bmp: seq<Byte>,
      bmp': seq<Byte>, sec: nat)
    requires Edited(d, d', a, b, i, off, s, bmp, bmp') && a.Base(i) + a.g.Raw() <= |a.d|
    requires b.Entry(i) == a.Entry(i) && sec < 8 * a.g.Bm()
    ensures a.BitOf(i, sec) == IsSet(MsbFirst, bmp, sec) && b.BitOf(i, sec) == IsSet(MsbFirst, bmp', sec)
  {
    EditedAt(d, d', a, b, i, off, s, bmp, bmp', a.Base(i) + sec / 8);
    BitFromMap(bmp, sec);
    BitFromMap(bmp', sec);
    hide Flushed, Overwrite, At, BE32, IsSet;
  }

  lemma EditedCells(d: seq<Byte>, d': seq<Byte>, a: Layer, b: Layer, i: nat, off: nat, s: seq<Byte>, bmp: seq<Byte>,
      bmp': seq<Byte>, o: nat)
    requires Edited(d, d', a, b, i, off, s, bmp, bmp') && a.Base(i) + a.g.Raw() <= |a.d|
    requires b.Entry(i) == a.Entry(i) && o < a.g.block
    ensures b.Cell(i, o) == if off <= o < off + |s| then s[o - off] else a.Cell(i, o)
  {
    EditedAt(d, d', a, b, i, off, s, bmp, bmp', a.Base(i) + a.g.Bm() + o);
    hide Flushed, Overwrite, At, BE32;
  }

  lemma EditedChanged(d: seq<Byte>, d': seq<Byte>, a: Layer, b: Layer, i: nat, off: nat, s: seq<Byte>,
      bmp: seq<Byte>, bmp': seq<Byte>, from: nat, n: nat)
    requires a.Layout() && i < a.g.entries && a.Has(i)
    requires Edited(d, d', a, b, i, off, s, bmp, bmp') && Marks(MsbFirst, bmp, bmp', from, n, false)
    ensures Changed(a, b, i, from, n, off, s)
  {
    hide Touched, Layer.Entry, Layer.BitOf, Layer.Cell, IsSet, Layer.Layout;
    BlockFits(a, i);
    EditedTouched(d, d', a, b, i, off, s, bmp, bmp');
    TouchedEntry(a, b, i, i);
    forall sec | 0 <= sec < 8 * a.g.Bm()
      ensures b.BitOf(i, sec) <==> from <= sec < from + n || a.BitOf(i, sec)
    {
      EditedBits(d, d', a, b, i, off, s, bmp, bmp', sec);
    }
    forall o | 0 <= o < a.g.block
      ensures b.Cell(i, o) == if off <= o < off + |s| then s[o - off] else a.Cell(i, o)
    {
      EditedCells(d, d', a, b, i, off, s, bmp, bmp', o);
    }
  }

  lemma BlockFits(a: Layer, i: nat)
    requires a.Layout() && i < a.g.entries && a.Has(i)
    ensures a.start <= a.Base(i) && a.Base(i) + a.g.Raw() <= |a.d| - 512
  {
  }

  /** The marks cover the bytes stored, and stay on the disk. */
  ghost predicate Covers(g: Geo, i: nat, from: nat, n: nat, off: nat, len: nat) {
    && n > 0 && 512 * (from + n - 1) < g.block && g.Pos(i, 512 * (from + n - 1)) < g.size
    && 512 * from <= off && off + len <= Min(g.block, 512 * (from + n))
  }

  lemma PosGrows(g: Geo, i: nat, o: nat, o': nat)
    requires o <= o'
    ensures g.Pos(i, o) <= g.Pos(i, o')
  {
  }

  lemma ChangedMarked(a: Layer, b: Layer, i: nat, from: nat, n: nat, off: nat, s: seq<Byte>)
    requires a.Marked(i) && Changed(a, b, i, from, n, off, s) && Covers(a.g, i, from, n, off, |s|)
    ensures b.Marked(i)
  {
    hide Layer.BitOf, Layer.Cell, Geo.Pos, Geo.Bm;
    assert b.g == a.g;
    forall sec | 0 <= sec < 8 * a.g.Bm() && b.BitOf(i, sec)
      ensures 512 * sec < b.g.block && b.g.Pos(i, 512 * sec) < b.g.size
    {
      if from <= sec < from + n {
        PosGrows(a.g, i, 512 * sec, 512 * (from + n - 1));
      } else {
        assert a.BitOf(i, sec);
      }
    }
  }

  lemma ChangedBlankIn(a: Layer, b: Layer, i: nat, from: nat, n: nat, off: nat, s: seq<Byte>)
    requires a.g.Valid() && a.BlankIn(i) && Changed(a, b, i, from, n, off, s) && Covers(a.g, i, from, n, off, |s|)
    ensures b.BlankIn(i)
  {
    hide Layer.BitOf, Layer.Cell, Geo.Pos, Geo.Bm, Geo.Valid;
    assert b.g == a.g;
    forall o | 0 <= o < b.g.block && !b.BitOf(i, o / 512) ensures b.Cell(i, o) == 0 {
      SectorInMap(a.g, o);
      assert a.Cell(i, o) == 0;
    }
  }

  lemma ChangedLayout(a: Layer, b: Layer, i: nat, from: nat, n: nat, off: nat, s: seq<Byte>)
    requires a.Layout() && i < a.g.entries && a.Has(i)
    requires Changed(a, b, i, from, n, off, s) && Covers(a.g, i, from, n, off, |s|)
    ensures b.Layout() && Kind(b.d) == Kind(a.d)
    ensures a.Blank() ==> b.Blank()
  {
    WasMarked(a, i);
    LayoutFramed(a);
    ValidGeo(a);
    ChangedMarked(a, b, i, from, n, off, s);
    IsTouched(a, b, i, from, n, off, s);
    TouchedLayout(a, b, i);
    if a.Blank() {
      ChangedBlankIn(a, b, i, from, n, off, s);
      TouchedBlank(a, b, i);
    }
  }

  lemma IsTouched(a: Layer, b: Layer, i: nat, from: nat, n: nat, off: nat, s: seq<Byte>)
    requires Changed(a, b, i, from, n, off, s)
    ensures Touched(a, b, i)
  {
  }

  lemma WasMarked(a: Layer, i: nat)
    requires a.Layout() && i < a.g.entries && a.Has(i)
    ensures a.Marked(i)
  {
  }

  /** Where the marks go, every byte the store leaves alone already holds what the disk shows there. */
  ghost predicate Ready(a: Layer, under: Disk, i: nat, from: nat, n: nat, off: nat, len: nat) {
    forall o {:trigger a.Cell(i, o)} :: 0 <= o < a.g.block && from <= o / 512 < from + n && !(off <= o < off + len) ==>
      a.Cell(i, o) == Over(a, under).Shows(a.g.Pos(i, o))
  }

  lemma ShowsIn(a: Layer, under: Disk, i: nat, o: nat)
    requires o < a.g.block && a.Has(i)
    ensures Over(a, under).Shows(a.g.Pos(i, o)) == if a.BitOf(i, o / 512) then a.Cell(i, o) else
        under.Shows(a.g.Pos(i, o))
  {
    a.g.Join(i, o);
  }

  /** The bytes of the block read as the bytes stored, the others as before. */
  lemma ChangedHere(a: Layer, b: Layer, under: Disk, i: nat, from: nat, n: nat, off: nat, s: seq<Byte>, o: nat)
    requires a.Layout() && i < a.g.entries && a.Has(i) && o < a.g.block
    requires Changed(a, b, i, from, n, off, s) && Covers(a.g, i, from, n, off, |s|)
    requires Ready(a, under, i, from, n, off, |s|)
    ensures Over(b, under).Shows(a.g.Pos(i, o)) ==
      if off <= o < off + |s| then s[o - off] else Over(a, under).Shows(a.g.Pos(i, o))
  {
    TouchedEntry(a, b, i, i);
    SectorInMap(a.g, o);
    ShowsIn(a, under, i, o);
    ShowsIn(b, under, i, o);
    hide Layer.BitOf, Layer.Layout, Layer.Cell, Touched, Disk.Shows, Geo.Pos;
  }

  lemma ChangedShows(a: Layer, b: Layer, under: Disk, i: nat, from: nat, n: nat, off: nat, s: seq<Byte>, p: nat)
    requires a.Layout() && i < a.g.entries && a.Has(i) && p < a.g.size
    requires Changed(a, b, i, from, n, off, s) && Covers(a.g, i, from, n, off, |s|)
    requires Ready(a, under, i, from, n, off, |s|)
    ensures Over(b, under).Shows(p) ==
      if a.g.Pos(i, off) <= p < a.g.Pos(i, off) + |s| then s[p - a.g.Pos(i, off)] else Over(a, under).Shows(p)
  {
    hide Layer.Layout;
    ValidGeo(a) by { assert a.Layout(); LayoutFramed(a); }
    Positive(a.g);
    a.g.Split(p);
    var j, o := a.g.Blk(p), a.g.Off(p);
    if j == i {
      ChangedHere(a, b, under, i, from, n, off, s, o);
    } else {
      a.g.Inside(p);
      TouchedOther(a, b, i, j);
      SameBlockShown(a, b, p, under.Shows(p));
      Apart(a.g, i, off, |s|, p);
    }
  }

  lemma LayoutFramed(a: Layer)
    requires a.Layout()
    ensures a.Framed()
  {
  }

  /** A position in another block lies outside a run of bytes in this one. */
  lemma Apart(g: Geo, i: nat, off: nat, len: nat, p: nat)
    requires g.block > 0 && off + len <= g.block && g.Blk(p) != i
    ensures !(g.Pos(i, off) <= p < g.Pos(i, off) + len)
  {
    if g.Pos(i, off) <= p < g.Pos(i, off) + len {
      g.Join(i, off + (p - g.Pos(i, off)));
    }
  }
}
