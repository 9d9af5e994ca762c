/** Growing a dynamic image: a longer table, blocks moved behind it, new headers. */
module VhdExpand {
  import opened Bytes
  import opened BlockBitmaps
  import opened VhdFooter
  import opened VhdLayers
  import opened VhdSteps
  import opened FileMove
  import VhdPlaces

  // ---- headers ----

  function Pack64BE(v: nat): (s: seq<Byte>)
    requires v < 0x1_0000_0000_0000_0000
    ensures |s| == 8 && BE64(s, 0) == v
  {
    var hi, lo := Pack32BE(v / 0x1_0000_0000), Pack32BE(v % 0x1_0000_0000);
    assert U32BE(hi, 0) == v / 0x1_0000_0000 && U32BE(lo, 0) == v % 0x1_0000_0000;
    hi + lo
  }

  /** mk_chs: the pseudo geometry of a disk size; it always fits its two bytes and two. */
  function Chs(size: nat): (r: seq<Byte>)
    ensures |r| == 4
    ensures (256 * r[0] + r[1]) * r[2] * r[3] <= size / 512
  {
    var sectors := Min(size / 512, 65535 * 16 * 255);
    var (cth, hh, spt) := Tracks(sectors);
    ChsFits(sectors);
    [cth / hh / 256, cth / hh % 256, hh, spt]
  }

  function Tracks(sectors: nat): (nat, nat, nat) {
    if sectors >= 65535 * 16 * 63 then (sectors / 255, 16, 255)
    else
      var cth := sectors / 17;
      var hh := Max((cth + 1023) / 1024, 4);
      if cth >= hh * 1024 || hh > 16 then
        if sectors / 31 >= 16 * 1024 then (sectors / 63, 16, 63) else (sectors / 31, 16, 31)
      else (cth, hh, 17)
  }

  lemma ChsFits(sectors: nat)
    requires sectors <= 65535 * 16 * 255
    ensures var (cth, hh, spt) := Tracks(sectors); 0 < hh < 256 && 0 < spt < 256 && cth / hh < 65536
    ensures var (cth, hh, spt) := Tracks(sectors); cth / hh * hh * spt <= sectors
  {
    var (cth, hh, spt) := Tracks(sectors);
    assert cth * spt <= sectors;
    assert cth / hh * hh <= cth;
    Mono(cth / hh * hh, cth, spt);
  }

  /** Tracks of 17 sectors as far as they reach, then 31, 63 and 255; 4 to 16 heads; cylinders to fill n sectors. */
  predicate Fills(n: nat, c: nat, h: nat, s: nat) {
    && s == (if n >= 66059280 then 255 else if n / 17 < 16384 && (n / 17 < 4096 || n / 17 % 1024 != 0) then 17
             else if n / 31 < 16384 then 31 else 63)
    && h == (if s == 17 then Max(4, (n / 17 + 1023) / 1024) else 16)
    && c * (h * s) <= n < (c + 1) * (h * s)
  }

  /** At most 267382800 sectors are counted. */
  lemma ChsIs(size: nat)
    ensures Fills(Min(size / 512, 267382800), 256 * (Chs(size)[0] as int) + Chs(size)[1] as int, Chs(size)[2] as int,
      Chs(size)[3] as int)
  {
    var n := Min(size / 512, 267382800);
    var (cth, hh, spt) := Tracks(n);
    ChsFits(n);
    TracksIs(n);
    hide Tracks;
    Cylinders(n, spt, hh);
  }

  lemma TracksIs(n: nat)
    ensures var (cth, hh, spt) := Tracks(n);
      && spt == (if n >= 66059280 then 255 else if n / 17 < 16384 && (n / 17 < 4096 || n / 17 % 1024 != 0) then 17
                 else if n / 31 < 16384 then 31 else 63)
      && hh == (if spt == 17 then Max(4, (n / 17 + 1023) / 1024) else 16) && cth == n / spt
  {
    ThousandsUp(n / 17);
  }

  lemma ThousandsUp(c: nat)
    ensures var h := Max((c + 1023) / 1024, 4); c >= h * 1024 || h > 16 <==> c >= 16384 || (c >= 4096 && c % 1024 == 0)
  {
  }

  lemma Cylinders(n: nat, s: nat, h: nat)
    requires s > 0 && h > 0
    ensures n / s / h * (h * s) <= n < (n / s / h + 1) * (h * s)
  {
    var q, c := n / s, n / s / h;
    assert c * h <= q < (c + 1) * h && q * s <= n < (q + 1) * s;
    Mono(c * h, q, s);
    Mono(q + 1, (c + 1) * h, s);
  }

  /** 1 MiB, and 100 GiB. */
  lemma ChsValues()
    ensures Chs(0x10_0000) == [0, 30, 4, 17] && Chs(0x19_0000_0000) == [200, 200, 16, 255]
  {
  }

  /** The footer with a new size, geometry, identity and checksum. */
  function NewFooter(ft: seq<Byte>, size: nat, uuid: seq<Byte>): (r: seq<Byte>)
    requires |ft| == 512 && |uuid| == 16 && size < 0x1_0000_0000_0000_0000
    ensures |r| == 512
  {
    var b := ft[..0x28] + Pack64BE(size) + Pack64BE(size) + Chs(size) + ft[0x3C..0x40] + [0, 0, 0, 0] + uuid + ft[0x54..];
    b[..0x40] + Checksum(b) + b[0x44..]
  }

  /** The header with a new table length and checksum. */
  function NewHeader(h: seq<Byte>, entries: nat): (r: seq<Byte>)
    requires |h| == 1024 && entries <= UNUSED
    ensures |r| == 1024
  {
    var b := h[..0x1C] + Pack32BE(entries) + h[0x20..0x24] + [0, 0, 0, 0] + h[0x28..];
    b[..0x24] + Checksum(b) + b[0x28..]
  }

  /** Footer and header as they are rewritten carry their own checksums. */
  lemma NewChecksums(ft: seq<Byte>, h: seq<Byte>, size: nat, uuid: seq<Byte>, entries: nat)
    requires |ft| == 512 && |uuid| == 16 && size < 0x1_0000_0000_0000_0000 && |h| == 1024 && entries <= UNUSED
    ensures CarriesChecksum(NewFooter(ft, size, uuid), CHECKSUM) && CarriesChecksum(NewHeader(h, entries), 0x24)
  {
    hide CarriesChecksum, Checksum, Pack64BE, Pack32BE, Chs;
    Checked(ft[..0x28] + Pack64BE(size) + Pack64BE(size) + Chs(size) + ft[0x3C..0x40] + [0, 0, 0, 0] + uuid + ft[0x54..], 0x40);
    Checked(h[..0x1C] + Pack32BE(entries) + h[0x20..0x24] + [0, 0, 0, 0] + h[0x28..], 0x24);
  }

  lemma NewFooterReads(ft: seq<Byte>, size: nat, uuid: seq<Byte>)
    requires |ft| == 512 && |uuid| == 16 && size < 0x1_0000_0000_0000_0000
    ensures BE64(NewFooter(ft, size, uuid), 0x30) == size
    ensures BE32(NewFooter(ft, size, uuid), 0x3C) == BE32(ft, 0x3C)
  {
    var r, p := NewFooter(ft, size, uuid), Pack64BE(size);
    assert BE64(p, 0) == size;
    forall k | 0x30 <= k < 0x38 ensures At(r, k) == At(p, k - 0x30) {
    }
    forall k | 0x3C <= k < 0x40 ensures At(r, k) == At(ft, k) {
    }
    hide NewFooter, At, Pack64BE;
  }

  /** A footer in bytes: r is ft with both sizes, the geometry, the checksum and the identity new. */
  ghost predicate FooterResized(ft: seq<Byte>, r: seq<Byte>, size: nat, uuid: seq<Byte>) {
    && |ft| == |r| == 512
    && (forall k {:trigger r[k]} :: 0 <= k < 512 && !(0x28 <= k < 0x3C) && !(0x40 <= k < 0x54) ==> r[k] == ft[k])
    && 0x1_0000_0000 * VhdPlaces.Four(r, 0x28) + VhdPlaces.Four(r, 0x2C) == size
    && 0x1_0000_0000 * VhdPlaces.Four(r, 0x30) + VhdPlaces.Four(r, 0x34) == size
    && Fills(Min(size / 512, 267382800), 256 * (r[0x38] as int) + r[0x39] as int, r[0x3A] as int, r[0x3B] as int)
    && r[0x44..0x54] == uuid
  }

  /** A header in bytes: the length of the table and the checksum are new. */
  ghost predicate HeaderResized(h: seq<Byte>, r: seq<Byte>, entries: nat) {
    && |h| == |r| == 1024 && VhdPlaces.Four(r, 0x1C) == entries
    && forall k {:trigger r[k]} :: 0 <= k < 1024 && !(0x1C <= k < 0x20) && !(0x24 <= k < 0x28) ==> r[k] == h[k]
  }

  lemma NewFooterBytes(ft: seq<Byte>, size: nat, uuid: seq<Byte>)
    requires |ft| == 512 && |uuid| == 16 && size < 0x1_0000_0000_0000_0000
    ensures FooterResized(ft, NewFooter(ft, size, uuid), size, uuid)
  {
    hide Chs, Checksum, Pack64BE, Fills;
    var r, p := NewFooter(ft, size, uuid), Pack64BE(size);
    ChsIs(size);
    EightBytes(p, size);
    forall k | 0 <= k < 8 ensures r[0x28 + k] == p[k] && r[0x30 + k] == p[k] {
    }
    forall k | 0 <= k < 512 && !(0x28 <= k < 0x3C) && !(0x40 <= k < 0x54) ensures r[k] == ft[k] {
    }
    var c := Chs(size);
    forall k | 0 <= k < 4 ensures r[0x38 + k] == c[k] {
    }
    forall k | 0 <= k < 16 ensures r[0x44 + k] == uuid[k] {
    }
    hide NewFooter;
    SliceIs(r, 0x44, uuid);
  }

  lemma SliceIs(r: seq<Byte>, at: nat, s: seq<Byte>)
    requires at + |s| <= |r| && forall k :: 0 <= k < |s| ==> r[at + k] == s[k]
    ensures r[at..at + |s|] == s
  {
  }

  lemma EightBytes(p: seq<Byte>, size: nat)
    requires |p| == 8 && BE64(p, 0) == size
    ensures 0x1_0000_0000 * VhdPlaces.Four(p, 0) + VhdPlaces.Four(p, 4) == size
  {
    VhdPlaces.FourIs(p, 0);
    VhdPlaces.FourIs(p, 4);
  }

  lemma NewHeaderBytes(h: seq<Byte>, entries: nat)
    requires |h| == 1024 && entries <= UNUSED
    ensures HeaderResized(h, NewHeader(h, entries), entries)
  {
    NewHeaderReads(h, entries);
    VhdPlaces.FourIs(NewHeader(h, entries), 0x1C);
    hide Checksum, Pack32BE, BE32;
  }

  lemma NewHeaderReads(h: seq<Byte>, entries: nat)
    requires |h| == 1024 && entries <= UNUSED
    ensures BE32(NewHeader(h, entries), 0x1C) == entries
    ensures BE32(NewHeader(h, entries), 0x20) == BE32(h, 0x20)
    ensures BE64(NewHeader(h, entries), 0x10) == BE64(h, 0x10)
  {
    var r, p := NewHeader(h, entries), Pack32BE(entries);
    assert U32BE(p, 0) == entries;
    forall k | 0x1C <= k < 0x20 ensures At(r, k) == At(p, k - 0x1C) {
    }
    forall k | 0x10 <= k < 0x18 || 0x20 <= k < 0x24 ensures At(r, k) == At(h, k) {
    }
    assert BE32(p, 0) == entries;
    hide NewHeader, At, Pack32BE;
  }

  // ---- the layout moved by delta bytes ----

  /** b is a with its blocks delta bytes further on, its table longer and its disk larger. */
  ghost predicate Rebased(a: Layer, b: Layer, delta: nat) {
    && delta % 512 == 0 && b.start == a.start + delta && |b.d| == |a.d| + delta
    && b.g.block == a.g.block && b.g.table == a.g.table && b.g.entries >= a.g.entries && b.g.size >= a.g.size
    && (forall i {:trigger b.Entry(i)} :: 0 <= i < b.g.entries ==>
          b.Entry(i) == if i < a.g.entries && a.Has(i) then a.Entry(i) + delta / 512 else UNUSED)
    && (forall k {:trigger At(b.d, k)} :: a.start + delta <= k < |b.d| - 512 ==> At(b.d, k) == At(a.d, k - delta))
  }

  /** The larger disk still fits what table entries can address. */
  ghost predicate Fits(b: Layer) {
    b.g.Valid() && b.g.table + b.g.TableSize() <= b.start && b.start + b.g.entries * b.g.Raw() <= 512 * UNUSED
  }

  lemma {:induction false} RebasedUsed(a: Layer, b: Layer, delta: nat, n: nat)
    requires Rebased(a, b, delta) && n <= b.g.entries
    requires forall i {:trigger b.Has(i)} :: 0 <= i < b.g.entries ==> (b.Has(i) <==> i < a.g.entries && a.Has(i))
    ensures b.Used(n) == a.Used(Min(n, a.g.entries))
  {
    if n > 0 {
      RebasedUsed(a, b, delta, n - 1);
    }
  }

  lemma RebasedHas(a: Layer, b: Layer, delta: nat, i: nat)
    requires a.Layout() && Rebased(a, b, delta) && Fits(b) && i < b.g.entries
    ensures b.Has(i) <==> i < a.g.entries && a.Has(i)
    ensures b.Has(i) ==> b.Base(i) == a.Base(i) + delta
  {
    if i < a.g.entries && a.Has(i) {
      BlockFits(a, i);
      LayoutFramed(a);
      hide Layer.Layout, Layer.Entry;
      UsedBound(a, i, a.g.entries);
      Mono(a.Used(a.g.entries), b.g.entries, a.g.Raw());
      assert b.Entry(i) == a.Entry(i) + delta / 512;
      Shift(a.Entry(i), delta);
    }
  }

  lemma Shift(e: nat, delta: nat)
    requires delta % 512 == 0
    ensures (e + delta / 512) * 512 == e * 512 + delta
  {
  }

  lemma RebasedByte(a: Layer, b: Layer, delta: nat, i: nat, k: nat)
    requires a.Layout() && Rebased(a, b, delta) && Fits(b) && i < a.g.entries && a.Has(i) && k < a.g.Raw()
    ensures At(b.d, b.Base(i) + k) == At(a.d, a.Base(i) + k)
  {
    RebasedHas(a, b, delta, i);
    BlockFits(a, i);
    hide Layer.Layout, Layer.Base, Layer.Has, At;
  }

  lemma RebasedBit(a: Layer, b: Layer, delta: nat, i: nat, sec: nat)
    requires a.Layout() && Rebased(a, b, delta) && Fits(b) && i < a.g.entries && a.Has(i) && sec < 8 * a.g.Bm()
    ensures b.BitOf(i, sec) == a.BitOf(i, sec)
  {
    RebasedByte(a, b, delta, i, sec / 8);
    hide Layer.Layout, Layer.Base, IsSet;
  }

  lemma RebasedCell(a: Layer, b: Layer, delta: nat, i: nat, o: nat)
    requires a.Layout() && Rebased(a, b, delta) && Fits(b) && i < a.g.entries && a.Has(i) && o < a.g.block
    ensures b.Cell(i, o) == a.Cell(i, o)
  {
    RebasedByte(a, b, delta, i, a.g.Bm() + o);
    hide Layer.Layout, Layer.Base;
  }

  lemma RebasedBlock(a: Layer, b: Layer, delta: nat, i: nat)
    requires a.Layout() && Rebased(a, b, delta) && Fits(b) && i < b.g.entries && b.Has(i)
    ensures b.Marked(i) && (a.Blank() ==> b.BlankIn(i))
  {
    RebasedHas(a, b, delta, i);
    WasMarked(a, i);
    assert a.Blank() ==> a.BlankIn(i);
    hide Layer.Layout, Layer.Blank, Layer.BitOf, Layer.Cell, Layer.Has, Geo.Valid;
    assert b.g.block == a.g.block && b.g.size >= a.g.size;
    forall sec | 0 <= sec < 8 * b.g.Bm() && b.BitOf(i, sec)
      ensures 512 * sec < b.g.block && b.g.Pos(i, 512 * sec) < b.g.size
    {
      RebasedBit(a, b, delta, i, sec);
    }
    if a.Blank() {
      forall o | 0 <= o < b.g.block && !b.BitOf(i, o / 512) ensures b.Cell(i, o) == 0 {
        LayoutFramed(a);
        ValidGeo(a);
        SectorInMap(a.g, o);
        RebasedBit(a, b, delta, i, o / 512);
        RebasedCell(a, b, delta, i, o);
      }
    }
  }

  lemma RebasedFrame(a: Layer, b: Layer, delta: nat)
    requires a.Layout() && Rebased(a, b, delta) && Fits(b)
    ensures b.Framed() && b.Placed() && b.Disjoint()
  {
    forall i {:trigger b.Has(i)} | 0 <= i < b.g.entries
      ensures b.Has(i) <==> i < a.g.entries && a.Has(i)
      ensures b.Has(i) ==> b.Base(i) == a.Base(i) + delta
    {
      RebasedHas(a, b, delta, i);
    }
    RebasedUsed(a, b, delta, b.g.entries);
    LayoutFramed(a);
    RebasedPlaces(a, b, delta);
    EvenStart(a.start, delta);
  }

  lemma EvenStart(start: nat, delta: nat)
    requires start % 512 == 0 && delta % 512 == 0
    ensures (start + delta) % 512 == 0
  {
  }

  lemma RebasedPlaces(a: Layer, b: Layer, delta: nat)
    requires a.Placed() && a.Disjoint() && b.start == a.start + delta && |b.d| == |a.d| + delta &&
        b.g.block == a.g.block
    requires forall i {:trigger b.Has(i)} :: 0 <= i < b.g.entries ==> (b.Has(i) <==> i < a.g.entries && a.Has(i))
    requires forall i {:trigger b.Has(i)} :: 0 <= i < b.g.entries && b.Has(i) ==> b.Base(i) == a.Base(i) + delta
    ensures b.Placed() && b.Disjoint()
  {
    hide Layer.Has, Layer.Base;
  }

  /** The larger container is laid out, and shows the old disk followed by zeros. */
  lemma RebasedDisk(a: Layer, b: Layer, delta: nat)
    requires Over(a, Nothing).Valid() && Rebased(a, b, delta) && Fits(b) && b.Sealed() && b.Padded() && Kind(b.d) == 3
    ensures Over(b, Nothing).Valid()
    ensures Over(b, Nothing).View() == Over(a, Nothing).View() + Zeros(b.g.size - a.g.size)
  {
    RebasedFrame(a, b, delta);
    forall i {:trigger b.Has(i)} | 0 <= i < b.g.entries && b.Has(i) ensures b.Marked(i) && b.BlankIn(i) {
      RebasedBlock(a, b, delta, i);
    }
    LayoutFramed(a);
    hide Layer.Marked, Layer.BlankIn, Layer.Framed, Layer.Placed, Layer.Disjoint, Layer.Sealed, Layer.Padded;
    hide Layer.Has, Disk.View;
    assert b.Layout() && b.Blank();
    RebasedView(a, b, delta);
  }

  lemma RebasedView(a: Layer, b: Layer, delta: nat)
    requires a.Layout() && Rebased(a, b, delta) && Fits(b)
    ensures Over(b, Nothing).View() == Over(a, Nothing).View() + Zeros(b.g.size - a.g.size)
  {
    hide Layer.Layout, Disk.Shows, Disk.View, Fits;
    assert b.g.size >= a.g.size;
    hide Rebased;
    var v, w := Over(a, Nothing).View(), Over(b, Nothing).View();
    forall p | 0 <= p < b.g.size ensures w[p] == if p < a.g.size then v[p] else 0 {
      RebasedShows(a, b, delta, p);
      ViewAt(Over(b, Nothing), p);
      if p < a.g.size {
        ViewAt(Over(a, Nothing), p);
      }
    }
  }

  lemma RebasedShows(a: Layer, b: Layer, delta: nat, p: nat)
    requires a.Layout() && Rebased(a, b, delta) && Fits(b) && p < b.g.size
    ensures Over(b, Nothing).Shows(p) == if p < a.g.size then Over(a, Nothing).Shows(p) else 0
  {
    LayoutFramed(a);
    ValidGeo(a);
    Positive(a.g);
    var i, o := b.g.Blk(p), b.g.Off(p);
    b.g.Inside(p) by { SizeFits(b); }
    RebasedHas(a, b, delta, i);
    a.g.Split(p);
    SectorInMap(a.g, o);
    if i < a.g.entries && a.Has(i) {
      RebasedBit(a, b, delta, i, o / 512);
      RebasedCell(a, b, delta, i, o);
      WasMarked(a, i);
      if p >= a.g.size {
        PastEnd(a.g, i, o);
      }
    } else if p < a.g.size {
      a.g.Inside(p) by { SizeInside(a); }
    }
    hide Layer.Layout, Layer.BitOf, Layer.Cell, Layer.Has;
  }

  lemma SizeFits(b: Layer)
    requires Fits(b)
    ensures b.g.block > 0 && b.g.size <= b.g.Pos(b.g.entries, 0)
  {
  }

  lemma SizeInside(a: Layer)
    requires a.Layout()
    ensures a.g.block > 0 && a.g.size <= a.g.Pos(a.g.entries, 0)
  {
  }

  /** A sector past the end of the disk starts past it. */
  lemma PastEnd(g: Geo, i: nat, o: nat)
    requires g.Valid() && g.Pos(i, o) >= g.size
    ensures g.Pos(i, 512 * (o / 512)) >= g.size
  {
    WholeGeo(g);
    hide Geo.Valid;
    Sectors(i, g.block);
    var b := i * g.block;
    assert g.Pos(i, o) == b + o && g.Pos(i, 512 * (o / 512)) == b + 512 * (o / 512);
    Aligned(b, o, g.size);
  }

  lemma Aligned(b: nat, o: nat, size: nat)
    requires b % 512 == 0 && size % 512 == 0 && b + o >= size
    ensures b + 512 * (o / 512) >= size
  {
  }

  // ---- the file on its way there ----

  /** The geometry of the larger disk. */
  function Larger(g: Geo, size: nat): Geo
    requires g.block > 0
  {
    Geo(size, g.block, g.table, CeilDiv(size, g.block))
  }

  /** n entries instead of n0 take that many bytes more: as few entries as hold the size, of four bytes each, in whole
      sectors. */
  predicate MadeRoom(block: nat, n0: nat, n: nat, size: nat, more: int) {
    && n * block - block < size <= n * block
    && more == (4 * n + 511) / 512 * 512 - (4 * n0 + 511) / 512 * 512
  }

  lemma RoomIs(g: Geo, size: nat)
    requires g.block > 0
    ensures var n := CeilDiv(size, g.block);
      MadeRoom(g.block, g.entries, n, size, Larger(g, size).TableSize() - g.TableSize())
  {
    CeilDivIs(size, g.block);
    hide CeilDiv;
  }

  lemma SameLength(y: seq<Byte>, z: seq<Byte>, ft: seq<Byte>, h: seq<Byte>)
    requires Retitled(y, z, ft, h)
    ensures |z| == |y|
  {
  }

  /** The first n entries in use have been moved on by deltas sectors. */
  ghost predicate Renumbered(a: Layer, x: seq<Byte>, y: seq<Byte>, deltas: nat, n: nat) {
    && |y| == |x|
    && (forall k {:trigger At(y, k)} :: k < a.g.table || k >= a.Slot(a.g.entries) ==> At(y, k) == At(x, k))
    && (forall i {:trigger BE32(y, a.Slot(i))} :: 0 <= i < a.g.entries ==>
          BE32(y, a.Slot(i)) == if i < n && a.Has(i) then a.Entry(i) + deltas else a.Entry(i))
  }

  lemma RenumberStart(a: Layer, x: seq<Byte>, delta: nat, fill: Option<Byte>, deltas: nat)
    requires Inserted(a.d, x, a.g.table + a.g.TableSize(), delta, fill)
    ensures Renumbered(a, x, x, deltas, 0)
  {
    forall i | 0 <= i < a.g.entries ensures BE32(x, a.Slot(i)) == a.Entry(i) {
      assert a.Slot(i) + 4 <= a.g.table + a.g.TableSize();
      assert forall k {:trigger At(x, k)} :: k < a.g.table + a.g.TableSize() ==> At(x, k) == At(a.d, k);
    }
  }

  lemma RenumberSkip(a: Layer, x: seq<Byte>, y: seq<Byte>, deltas: nat, n: nat)
    requires Renumbered(a, x, y, deltas, n) && n < a.g.entries && !a.Has(n)
    ensures Renumbered(a, x, y, deltas, n + 1)
  {
    hide BE32, At;
  }

  lemma RenumberOne(a: Layer, x: seq<Byte>, y: seq<Byte>, deltas: nat, n: nat)
    requires Renumbered(a, x, y, deltas, n) && n < a.g.entries && a.Has(n) && a.Entry(n) + deltas <= UNUSED
    requires a.Slot(a.g.entries) <= |y|
    ensures Renumbered(a, x, Overwrite(y, a.Slot(n), Pack32BE(a.Entry(n) + deltas)), deltas, n + 1)
  {
    hide BE32, At, Overwrite;
    var p := Pack32BE(a.Entry(n) + deltas);
    var z := Overwrite(y, a.Slot(n), p);
    AtOverwrite(y, a.Slot(n), p, 0);
    forall k: int {:trigger At(z, k)} ensures k < a.g.table || k >= a.Slot(a.g.entries) ==> At(z, k) == At(y, k) {
      AtOverwrite(y, a.Slot(n), p, k);
    }
    forall i {:trigger BE32(z, a.Slot(i))} | 0 <= i < a.g.entries
      ensures BE32(z, a.Slot(i)) == if i < n + 1 && a.Has(i) then a.Entry(i) + deltas else a.Entry(i)
    {
      if i == n {
        PackedBE32(y, a.Slot(n), a.Entry(n) + deltas);
      } else {
        OtherWord(y, a.Slot(n), p, a.Slot(i));
        assert BE32(y, a.Slot(i)) == if i < n && a.Has(i) then a.Entry(i) + deltas else a.Entry(i);
      }
    }
  }

  lemma OtherWord(d: seq<Byte>, p: nat, s: seq<Byte>, k: nat)
    requires |s| == 4 && (k + 4 <= p || p + 4 <= k)
    ensures BE32(Overwrite(d, p, s), k) == BE32(d, k)
  {
    hide Overwrite, At;
    AtOverwrite(d, p, s, k);
    AtOverwrite(d, p, s, k + 1);
    AtOverwrite(d, p, s, k + 2);
    AtOverwrite(d, p, s, k + 3);
  }

  /** New footer, header and trailing footer. */
  ghost predicate Retitled(y: seq<Byte>, z: seq<Byte>, ft: seq<Byte>, h: seq<Byte>) {
    && |z| == |y| >= 2048 && |ft| == 512 && |h| == 1024
    && (forall k {:trigger At(z, k)} :: 1536 <= k < |y| - 512 ==> At(z, k) == At(y, k))
    && (forall k {:trigger At(z, k)} :: 0 <= k < 512 ==> At(z, k) == ft[k])
    && (forall k {:trigger At(z, k)} :: 512 <= k < 1536 ==> At(z, k) == h[k - 512])
    && (forall k {:trigger Foot(z, k)} :: 0 <= k < 512 ==> Foot(z, k) == ft[k])
  }

  lemma Retitling(y: seq<Byte>, ft: seq<Byte>, h: seq<Byte>)
    requires |y| >= 2048 && |ft| == 512 && |h| == 1024
    ensures Retitled(y, Overwrite(Overwrite(Overwrite(y, 0, ft), 512, h), |y| - 512, ft), ft, h)
    ensures |Overwrite(Overwrite(y, 0, ft), 512, h)| == |y|
  {
    var y1 := Overwrite(y, 0, ft);
    var y2 := Overwrite(y1, 512, h);
    var z := Overwrite(y2, |y| - 512, ft);
    AtOverwrite(y, 0, ft, 0);
    AtOverwrite(y1, 512, h, 0);
    AtOverwrite(y2, |y| - 512, ft, 0);
    hide Overwrite, At;
    forall k: int {:trigger At(z, k)}
      ensures At(z, k) == if |y| - 512 <= k < |y| then ft[k - (|y| - 512)] else
          if 512 <= k < 1536 then h[k - 512] else if 0 <= k < 512 then ft[k] else At(y, k)
    {
      AtOverwrite(y, 0, ft, k);
      AtOverwrite(y1, 512, h, k);
      AtOverwrite(y2, |y| - 512, ft, k);
    }
  }

  lemma RetitledGeo(z: seq<Byte>, ft: seq<Byte>, h: seq<Byte>)
    requires |ft| == 512 && |h| == 1024
    requires forall k {:trigger At(z, k)} :: 0 <= k < 512 ==> At(z, k) == ft[k]
    requires forall k {:trigger At(z, k)} :: 512 <= k < 1536 ==> At(z, k) == h[k - 512]
    ensures GeoIn(z) == Geo(BE64(ft, 0x30), BE32(h, 0x20), BE64(h, 0x10), BE32(h, 0x1C)) && Kind(z) == BE32(ft, 0x3C)
  {
    forall k | 0 <= k < 512 ensures At(ft, k) == At(z, k) {
    }
    forall k | 0 <= k < 1024 ensures At(h, k) == At(z, 512 + k) {
    }
    hide At;
  }

  /** Between the table and the blocks everything reads as unused. */
  lemma SpareBytes(a: Layer, x: seq<Byte>, y: seq<Byte>, z: seq<Byte>, ft: seq<Byte>, h: seq<Byte>, delta: nat,
      deltas: nat, k: int)
    requires a.Framed() && a.Padded() && Inserted(a.d, x, a.g.table + a.g.TableSize(), delta, Some(0xFF))
    requires Renumbered(a, x, y, deltas, a.g.entries) && Retitled(y, z, ft, h) && a.start + 512 <= |a.d|
    requires a.Slot(a.g.entries) <= k < a.g.table + a.g.TableSize() + delta
    ensures At(z, k) == 0xFF
  {
    assert 1536 <= k < |y| - 512;
    hide BE32, At;
    assert At(z, k) == At(y, k) == At(x, k);
    assert k < a.g.table + a.g.TableSize() ==> At(x, k) == At(a.d, k) && At(a.d, k) == 0xFF;
  }

  /** The blocks themselves only moved. */
  lemma MovedBytes(a: Layer, x: seq<Byte>, y: seq<Byte>, z: seq<Byte>, ft: seq<Byte>, h: seq<Byte>, delta: nat,
      deltas: nat, k: int)
    requires a.Framed() && Inserted(a.d, x, a.g.table + a.g.TableSize(), delta, Some(0xFF))
    requires Renumbered(a, x, y, deltas, a.g.entries) && Retitled(y, z, ft, h)
    requires a.start + delta <= k < |z| - 512
    ensures At(z, k) == At(a.d, k - delta)
  {
    assert 1536 <= a.start && a.Slot(a.g.entries) <= a.start;
    hide BE32, At;
    assert At(z, k) == At(y, k) == At(x, k);
  }

  lemma MovedEntry(a: Layer, x: seq<Byte>, y: seq<Byte>, z: seq<Byte>, ft: seq<Byte>, h: seq<Byte>, delta: nat,
      deltas: nat, i: nat)
    requires a.Framed() && a.Padded() && Inserted(a.d, x, a.g.table + a.g.TableSize(), delta, Some(0xFF))
    requires Renumbered(a, x, y, deltas, a.g.entries) && Retitled(y, z, ft, h) && a.start + 512 <= |a.d|
    requires a.Slot(i) + 4 <= a.g.table + a.g.TableSize() + delta
    ensures BE32(z, a.Slot(i)) == if i < a.g.entries && a.Has(i) then a.Entry(i) + deltas else UNUSED
  {
    if i < a.g.entries {
      assert forall k {:trigger At(z, k)} :: a.Slot(i) <= k < a.Slot(i) + 4 ==> At(z, k) == At(y, k);
      assert BE32(z, a.Slot(i)) == BE32(y, a.Slot(i));
    } else {
      forall k {:trigger At(z, k)} | a.Slot(i) <= k < a.Slot(i) + 4 ensures At(z, k) == 0xFF {
        SpareBytes(a, x, y, z, ft, h, delta, deltas, k);
      }
    }
    hide At;
  }

  lemma NothingMoved(a: Layer, delta: nat)
    requires delta == 0
    ensures Inserted(a.d, a.d, a.g.table + a.g.TableSize(), delta, Some(0xFF))
    ensures Renumbered(a, a.d, a.d, 0, a.g.entries)
  {
  }

  lemma LargerValid(g: Geo, size: nat)
    requires g.Valid() && size % 512 == 0 && g.entries <= Larger(g, size).entries
    ensures Larger(g, size).Valid() && Larger(g, size).TableSize() >= g.TableSize()
    ensures (Larger(g, size).TableSize() - g.TableSize()) % 512 == 0
    ensures 4 * Larger(g, size).entries <= Larger(g, size).TableSize()
  {
    Enough(size, g.block);
    hide CeilDiv;
    WholeTable(4 * CeilDiv(size, g.block), 4 * g.entries);
  }

  lemma Enough(size: nat, block: nat)
    requires block > 0
    ensures size <= CeilDiv(size, block) * block
  {
    Rounded(size + block - 1, block);
  }

  lemma Rounded(x: nat, m: nat)
    requires m > 0
    ensures x < x / m * m + m
  {
  }

  lemma WholeTable(a: nat, b: nat)
    ensures ((a + 511) / 512 * 512 - (b + 511) / 512 * 512) % 512 == 0
    ensures a <= (a + 511) / 512 * 512
    ensures a >= b ==> (a + 511) / 512 * 512 >= (b + 511) / 512 * 512
  {
  }

  lemma HeaderOf(d: seq<Byte>, h: seq<Byte>)
    requires |d| >= 1536 && h == ReadAt(d, 512, 1024)
    ensures |h| == 1024 && BE32(h, 0x20) == BE32(d, 512 + 0x20) && BE64(h, 0x10) == BE64(d, 512 + 0x10)
  {
    forall k | 0 <= k < 1024 ensures At(h, k) == At(d, 512 + k) {
    }
    hide At;
  }

  lemma FooterKind(d: seq<Byte>)
    requires Kin(d)
    ensures BE32(Trail(d), 0x3C) == Kind(d)
  {
    forall k | 0x3C <= k < 0x40 ensures At(Trail(d), k) == At(d, k) {
    }
    hide At, Foot, Packed;
  }

  /** The titles of e in bytes: those of d, both footers resized and the header extended. */
  ghost predicate TitledAs(d: seq<Byte>, e: seq<Byte>, size: nat, uuid: seq<Byte>, entries: nat) {
    && |d| >= 2048 && |e| >= 2048
    && FooterResized(d[..512], e[..512], size, uuid) && FooterResized(d[..512], e[|e| - 512..], size, uuid)
    && HeaderResized(d[512..1536], e[512..1536], entries)
  }

  lemma RetitledBytes(d: seq<Byte>, y: seq<Byte>, z: seq<Byte>, ft: seq<Byte>, h: seq<Byte>, size: nat, uuid: seq<Byte>,
      entries: nat)
    requires |d| >= 2048 && Kin(d) && ft == Trail(d) && h == ReadAt(d, 512, 1024) && |h| == 1024
    requires |uuid| == 16 && size < 0x1_0000_0000_0000_0000 && entries <= UNUSED
    requires Retitled(y, z, NewFooter(ft, size, uuid), NewHeader(h, entries))
    ensures TitledAs(d, z, size, uuid, entries)
  {
    hide NewFooter, NewHeader, HeaderResized, Fills;
    NewFooterBytes(ft, size, uuid);
    NewHeaderBytes(h, entries);
    WrittenTitles(y, z, NewFooter(ft, size, uuid), NewHeader(h, entries));
    hide Retitled;
    SameOld(d, ft);
    ResizedToo(ft, d[..512], NewFooter(ft, size, uuid), size, uuid);
    assert h == d[512..1536];
  }

  lemma WrittenTitles(y: seq<Byte>, z: seq<Byte>, ft: seq<Byte>, h: seq<Byte>)
    requires Retitled(y, z, ft, h)
    ensures |z| >= 2048 && z[..512] == ft == z[|z| - 512..] && z[512..1536] == h
  {
    forall k | 0 <= k < 512 ensures z[k] == ft[k] == z[|z| - 512 + k] {
      assert At(z, k) == ft[k] && Foot(z, k) == ft[k];
    }
    forall k | 512 <= k < 1536 ensures z[k] == h[k - 512] {
      assert At(z, k) == h[k - 512];
    }
  }

  /** Whether packed or not, the footer at the end has the bytes of sector 0, but for the checksum. */
  lemma SameOld(d: seq<Byte>, ft: seq<Byte>)
    requires |d| >= 2048 && Kin(d) && ft == Trail(d)
    ensures forall k {:trigger ft[k]} :: 0 <= k < 512 && !(0x40 <= k < 0x44) ==> ft[k] == d[k]
  {
    var lead := Lead(d);
    forall k {:trigger ft[k]} | 0 <= k < 512 && !(0x40 <= k < 0x44) ensures ft[k] == d[k] {
      assert lead[k] == At(d, k);
    }
  }

  lemma ResizedToo(ft: seq<Byte>, lead: seq<Byte>, r: seq<Byte>, size: nat, uuid: seq<Byte>)
    requires FooterResized(ft, r, size, uuid) && |lead| == 512
    requires forall k {:trigger ft[k]} :: 0 <= k < 512 && !(0x40 <= k < 0x44) ==> ft[k] == lead[k]
    ensures FooterResized(lead, r, size, uuid)
  {
    forall k {:trigger r[k]} | 0 <= k < 512 && !(0x28 <= k < 0x3C) && !(0x40 <= k < 0x54) ensures r[k] == lead[k] {
      assert r[k] == ft[k];
    }
  }

  /** What opening looks for is still there. */
  lemma StillSigned(d: seq<Byte>, e: seq<Byte>, size: nat, uuid: seq<Byte>, entries: nat)
    requires TitledAs(d, e, size, uuid, entries) && Signed(d)
    ensures Signed(e)
  {
    var n := |e| - 512;
    forall k | 0 <= k < 0x28 ensures e[k] == d[k] == e[n + k] {
      assert e[..512][k] == d[..512][k] && e[n..][k] == d[..512][k];
    }
    forall k | 512 <= k < 528 ensures e[k] == d[k] {
      assert e[512..1536][k - 512] == d[512..1536][k - 512];
    }
    hide TitledAs;
    SliceIs(e, 0, d[..8]);
    SliceIs(e, 0x24, d[0x24..0x28]);
    SliceIs(e, n, d[..8]);
    SliceIs(e, n + 0x24, d[0x24..0x28]);
    SliceIs(e, 0x200, d[0x200..0x208]);
  }

  /** The new titles give the new geometry, and the trailing footer matches the leading one. */
  lemma ExpandedTitles(a: Layer, y: seq<Byte>, z: seq<Byte>, ft: seq<Byte>, h: seq<Byte>, uuid: seq<Byte>,
      size: nat, b: Layer)
    requires a.Sealed() && |a.d| >= 2048 && a.g.block > 0 && |ft| == 512 && |h| == 1024 && |uuid| == 16
    requires h == ReadAt(a.d, 512, 1024) && BE32(ft, 0x3C) == 3
    requires size < 0x1_0000_0000_0000_0000 && Larger(a.g, size).entries <= UNUSED
    requires Retitled(y, z, NewFooter(ft, size, uuid), NewHeader(h, Larger(a.g, size).entries))
    requires b.d == z && b.g == Larger(a.g, size)
    ensures b.Sealed() && Twins(z) && Kind(z) == 3
  {
    var ft', h' := NewFooter(ft, size, uuid), NewHeader(h, Larger(a.g, size).entries);
    NewFooterReads(ft, size, uuid);
    NewHeaderReads(h, Larger(a.g, size).entries);
    HeaderOf(a.d, h);
    RetitledGeo(z, ft', h');
    assert GeoIn(a.d) == a.g;
    hide NewFooter, NewHeader, BE32, At, Packed;
    assert Lead(z) == ft' == Trail(z);
  }

  /** What the three steps of expand leave is the old container moved on, with a longer table. */
  lemma ExpandedRebased(a: Layer, x: seq<Byte>, y: seq<Byte>, z: seq<Byte>, ft: seq<Byte>, h: seq<Byte>, delta: nat,
      b: Layer)
    requires a.Framed() && a.Padded() && a.start + 512 <= |a.d| && a.g.size <= b.g.size && a.g.entries <= b.g.entries
    requires b.g.block == a.g.block && b.g.table == a.g.table && b.d == z && b.start == a.start + delta
    requires delta == b.g.TableSize() - a.g.TableSize() && delta % 512 == 0
    requires Inserted(a.d, x, a.g.table + a.g.TableSize(), delta, Some(0xFF))
    requires Renumbered(a, x, y, delta / 512, a.g.entries) && Retitled(y, z, ft, h)
    ensures Rebased(a, b, delta) && b.Padded()
  {
    hide At, BE32, Retitled, Renumbered, Inserted, Layer.Framed, Layer.Padded, Geo.TableSize;
    Lengths(a, x, y, z, ft, h, delta);
    EntriesMoved(a, x, y, z, ft, h, delta, b);
    BlocksMoved(a, x, y, z, ft, h, delta);
    PaddedMoved(a, x, y, z, ft, h, delta, b);
  }

  lemma EntriesMoved(a: Layer, x: seq<Byte>, y: seq<Byte>, z: seq<Byte>, ft: seq<Byte>, h: seq<Byte>, delta: nat,
      b: Layer)
    requires a.Framed() && a.Padded() && a.start + 512 <= |a.d| && a.g.entries <= b.g.entries
    requires b.g.table == a.g.table && b.d == z && delta == b.g.TableSize() - a.g.TableSize()
    requires Inserted(a.d, x, a.g.table + a.g.TableSize(), delta, Some(0xFF))
    requires Renumbered(a, x, y, delta / 512, a.g.entries) && Retitled(y, z, ft, h)
    ensures forall i {:trigger b.Entry(i)} :: 0 <= i < b.g.entries ==>
      b.Entry(i) == if i < a.g.entries && a.Has(i) then a.Entry(i) + delta / 512 else UNUSED
  {
    assert b.Slot(b.g.entries) <= b.g.table + b.g.TableSize();
    hide At, BE32, Retitled, Renumbered, Inserted, Layer.Framed, Layer.Padded, Geo.TableSize;
    forall i {:trigger b.Entry(i)} | 0 <= i < b.g.entries
      ensures b.Entry(i) == if i < a.g.entries && a.Has(i) then a.Entry(i) + delta / 512 else UNUSED
    {
      MovedEntry(a, x, y, z, ft, h, delta, delta / 512, i);
    }
  }

  lemma BlocksMoved(a: Layer, x: seq<Byte>, y: seq<Byte>, z: seq<Byte>, ft: seq<Byte>, h: seq<Byte>, delta: nat)
    requires a.Framed()
    requires Inserted(a.d, x, a.g.table + a.g.TableSize(), delta, Some(0xFF))
    requires Renumbered(a, x, y, delta / 512, a.g.entries) && Retitled(y, z, ft, h)
    ensures forall k {:trigger At(z, k)} :: a.start + delta <= k < |z| - 512 ==> At(z, k) == At(a.d, k - delta)
  {
    hide At, BE32, Retitled, Renumbered, Inserted, Layer.Framed;
    forall k {:trigger At(z, k)} | a.start + delta <= k < |z| - 512 ensures At(z, k) == At(a.d, k - delta) {
      MovedBytes(a, x, y, z, ft, h, delta, delta / 512, k);
    }
  }

  lemma Lengths(a: Layer, x: seq<Byte>, y: seq<Byte>, z: seq<Byte>, ft: seq<Byte>, h: seq<Byte>, delta: nat)
    requires Inserted(a.d, x, a.g.table + a.g.TableSize(), delta, Some(0xFF))
    requires Renumbered(a, x, y, delta / 512, a.g.entries) && Retitled(y, z, ft, h)
    ensures |z| == |a.d| + delta
  {
  }

  lemma PaddedMoved(a: Layer, x: seq<Byte>, y: seq<Byte>, z: seq<Byte>, ft: seq<Byte>, h: seq<Byte>, delta: nat,
      b: Layer)
    requires a.Framed() && a.Padded() && a.start + 512 <= |a.d| && a.g.entries <= b.g.entries
    requires b.g.table == a.g.table && b.d == z && delta == b.g.TableSize() - a.g.TableSize()
    requires Inserted(a.d, x, a.g.table + a.g.TableSize(), delta, Some(0xFF))
    requires Renumbered(a, x, y, delta / 512, a.g.entries) && Retitled(y, z, ft, h)
    ensures b.Padded()
  {
    forall k {:trigger At(b.d, k)} | b.Slot(b.g.entries) <= k < b.g.table + b.g.TableSize() ensures At(b.d, k) == 0xFF {
      SpareBytes(a, x, y, z, ft, h, delta, delta / 512, k);
    }
  }
}
