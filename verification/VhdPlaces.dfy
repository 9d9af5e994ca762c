/** The disk read straight from the bytes of its containers, without the model's layers. */
module VhdPlaces {
  import opened Bytes
  import opened Bits
  import opened BlockBitmaps
  import opened VhdLayers
  import opened VhdReads
  import opened VhdWrites

  /** A big-endian number of four bytes. */
  function Four(d: seq<Byte>, k: nat): nat {
    ((At(d, k) as int * 256 + At(d, k + 1) as int) * 256 + At(d, k + 2) as int) * 256 + At(d, k + 3) as int
  }

  /** Where the header says the table is, what it says of a block's size, and what the table says of a block. */
  function TableIn(d: seq<Byte>): nat { 0x1_0000_0000 * Four(d, 0x210) + Four(d, 0x214) }

  function BlockIn(d: seq<Byte>): nat { Four(d, 0x220) }

  /** The size of the disk in the footer copy, and how many entries the table has. */
  function SizeIn(d: seq<Byte>): nat { 0x1_0000_0000 * Four(d, 0x30) + Four(d, 0x34) }

  function EntriesIn(d: seq<Byte>): nat { Four(d, 0x21C) }

  function EntryIn(d: seq<Byte>, i: nat): nat { Four(d, TableIn(d) + 4 * i) }

  /** The mark of byte o of a block whose bitmap begins in sector e: a bit for each sector of the block. */
  predicate MarkIn(d: seq<Byte>, e: nat, o: nat) { SectorBit(MsbFirst, At(d, 512 * e + o / 4096) as int, o / 512 % 8) }

  /** The byte itself, behind as few sectors as those bits take. */
  function PlaceOf(block: nat, e: nat, o: nat): nat { 512 * e + 512 * ((block / 512 + 4095) / 4096) + o }

  function Quotient(p: nat, n: nat): nat
    requires n > 0
  {
    p / n
  }

  function Remainder(p: nat, n: nat): nat
    requires n > 0
  {
    p % n
  }

  /** Byte p of the disk that a line of containers, the topmost first, makes. */
  function Straight(files: seq<seq<Byte>>, p: nat): Byte {
    if files == [] then 0 else ThroughTop(files[0], p, Straight(files[1..], p))
  }

  function ThroughTop(d: seq<Byte>, p: nat, under: Byte): Byte {
    if BlockIn(d) == 0 then under
    else
      var e, o := EntryIn(d, Quotient(p, BlockIn(d))), Remainder(p, BlockIn(d));
      if e != 0xFFFF_FFFF && MarkIn(d, e, o) then At(d, PlaceOf(BlockIn(d), e, o)) else under
  }

  /** The containers of a line. */
  ghost function Files(k: Disk): (r: seq<seq<Byte>>) {
    if k.Nothing? then [] else [k.top.d] + Files(k.under)
  }

  // ---- the bitmap ----

  /** One bit a sector, in whole sectors, and no more of those than it takes. */
  lemma BitmapSize(g: Geo)
    requires g.Valid()
    ensures g.Bm() == 512 * ((g.block / 512 + 4095) / 4096)
  {
    var n, m := g.block / 512, g.Bm() / 512;
    assert g.Bm() == 512 * m && n <= 4096 * m;
    if g.Bm() > 512 {
      assert n / 8 == 512 * m;
      assert 8 * (n / 8) <= n;
    }
    assert n == 4096 * m || (m == 1 && 0 < n);
    RoundedUp(n, m);
  }

  lemma RoundedUp(n: nat, m: nat)
    requires n == 4096 * m || (m == 1 && 0 < n <= 4096)
    ensures (n + 4095) / 4096 == m
  {
  }

  lemma FewSectors(n: nat)
    requires 0 < n <= 4096
    ensures Geo(0, 512 * n, 0, 0).Bm() == 512 == 512 * ((n + 4095) / 4096)
  {
    RoundedUp(n, 1);
  }

  lemma ManySectors(m: nat)
    requires m > 0
    ensures Geo(0, 512 * (4096 * m), 0, 0).Bm() == 512 * m == 512 * ((4096 * m + 4095) / 4096)
  {
    RoundedUp(4096 * m, m);
    assert 512 * (4096 * m) / 512 == 4096 * m && 4096 * m / 8 == 512 * m;
  }

  /** For blocks of 512 * 2**k bytes that is what max(512, block // 512 // 8) comes to. */
  lemma PowerBlocks(k: nat, g: Geo)
    requires g.block == 512 * Shl(1, k)
    ensures g.Bm() == 512 * ((Shl(1, k) + 4095) / 4096) && g.Bm() % 512 == 0 && g.block / 512 <= 8 * g.Bm()
  {
    var n := Shl(1, k);
    PowerOrLess(k);
    SectorsOf(g, n);
    hide *;
    if n <= 4096 {
      FewSectors(n);
    } else {
      ManySectors(n / 4096);
      assert 4096 * (n / 4096) == n;
    }
  }

  lemma SectorsOf(g: Geo, n: nat)
    requires g.block == 512 * n
    ensures g.Bm() == Geo(0, 512 * n, 0, 0).Bm() && g.block / 512 == n
  {
  }

  lemma PowerOrLess(k: nat)
    ensures 0 < Shl(1, k) && (Shl(1, k) <= 4096 || Shl(1, k) % 4096 == 0)
  {
    ShlUpTo(k, k);
    TwelveBits();
    if k <= 12 {
      ShlUpTo(k, 12);
    } else {
      ShlSplit(k - 12, 12);
    }
  }

  lemma TwelveBits()
    ensures Shl(1, 12) == 4096
  {
    Eight();
    ShlSplit(4, 8);
    assert Shl(1, 4) == 16;
  }

  lemma {:induction false} ShlUpTo(a: nat, b: nat)
    requires a <= b
    ensures 0 < Shl(1, a) <= Shl(1, b)
  {
    if a < b {
      ShlUpTo(a, b - 1);
    } else if a > 0 {
      ShlUpTo(a - 1, a - 1);
    }
  }

  lemma {:induction false} ShlSplit(a: nat, b: nat)
    ensures Shl(1, a + b) == Shl(1, a) * Shl(1, b)
  {
    if b > 0 {
      ShlSplit(a, b - 1);
      assert Shl(1, a + b) == 2 * Shl(1, a + b - 1);
      assert Shl(1, a) * (2 * Shl(1, b - 1)) == 2 * (Shl(1, a) * Shl(1, b - 1));
    } else {
      assert Shl(1, 0) == 1;
    }
  }

  lemma FourIs(d: seq<Byte>, k: nat)
    ensures Four(d, k) == BE32(d, k)
  {
  }

  /** Opening takes these, and the kind of the disk from byte 60 on. */
  lemma GeoBytes(d: seq<Byte>)
    ensures GeoIn(d) == Geo(SizeIn(d), BlockIn(d), TableIn(d), EntriesIn(d)) && Kind(d) == Four(d, 0x3C)
  {
    FourIs(d, 0x30);
    FourIs(d, 0x34);
    FourIs(d, 0x3C);
    FourIs(d, 0x210);
    FourIs(d, 0x214);
    FourIs(d, 0x21C);
    FourIs(d, 0x220);
    hide BE32, Four;
  }

  lemma GeoStraight(a: Layer, i: nat)
    requires GeoIn(a.d) == a.g
    ensures BlockIn(a.d) == a.g.block && EntryIn(a.d, i) == a.Entry(i)
  {
    FourIs(a.d, 0x210);
    FourIs(a.d, 0x214);
    FourIs(a.d, 0x220);
    FourIs(a.d, a.g.table + 4 * i);
    hide BE32, Four;
  }

  lemma MarkStraight(a: Layer, i: nat, o: nat)
    ensures MarkIn(a.d, a.Entry(i), o) <==> a.BitOf(i, o / 512)
  {
    hide IsSet, SectorBit, Layer.Entry;
    assert o / 512 / 8 == o / 4096;
    MarkIs(MsbFirst, [At(a.d, a.Base(i) + o / 512 / 8)], o / 512 % 8);
  }

  lemma PlaceStraight(a: Layer, i: nat, o: nat)
    requires a.g.Valid()
    ensures PlaceOf(a.g.block, a.Entry(i), o) == a.Base(i) + a.g.Bm() + o
  {
    hide Layer.Entry;
    BitmapSize(a.g);
  }

  /** The container read straight, over what is under it. */
  lemma StraightTop(a: Layer, p: nat, under: Byte)
    requires a.g.Valid() && GeoIn(a.d) == a.g
    ensures ThroughTop(a.d, p, under) == a.Shown(p, under)
  {
    hide MarkIn, PlaceOf, BlockIn, EntryIn, Layer.Entry, Layer.BitOf, Layer.Base, Geo.Bm, Geo.Valid, At, GeoIn;
    BlockPositive(a.g);
    var i, o := a.g.Blk(p), a.g.Off(p);
    GeoStraight(a, i);
    MarkStraight(a, i, o);
    PlaceStraight(a, i, o);
  }

  lemma BlockPositive(g: Geo)
    requires g.Valid()
    ensures g.block > 0
  {
  }

  /** What a line of images shows is what its files say. */
  lemma {:induction false} ShowsStraight(k: Disk, p: nat)
    requires k.Valid()
    ensures k.Shows(p) == Straight(Files(k), p)
  {
    if k.Over? {
      ShowsStraight(k.under, p);
      LineGeo(k);
      hide ThroughTop, Disk.Valid, Layer.Shown;
      StraightTop(k.top, p, k.under.Shows(p));
      assert Files(k)[1..] == Files(k.under);
    }
  }

  lemma LineGeo(k: Disk)
    requires k.Valid() && k.Over?
    ensures k.top.g.Valid() && GeoIn(k.top.d) == k.top.g
  {
  }

  /** So is every byte of its contents. */
  lemma ViewStraight(k: Disk)
    requires k.Valid() && k.Over?
    ensures forall p {:trigger k.View()[p]} :: 0 <= p < k.top.g.size ==> k.View()[p] == Straight(Files(k), p)
  {
    hide Straight, Disk.Valid, Files;
    forall p {:trigger k.View()[p]} | 0 <= p < k.top.g.size ensures k.View()[p] == Straight(Files(k), p) {
      ViewAt(k, p);
      ShowsStraight(k, p);
    }
  }

  /** r is what the files have from p on. */
  ghost predicate ReadFrom(files: seq<seq<Byte>>, p: nat, r: seq<Byte>) {
    forall j {:trigger r[j]} :: 0 <= j < |r| ==> r[j] == Straight(files, p + j)
  }

  /** On a disk of that size the files have s from p on, and for the rest what they had. */
  ghost predicate WrittenTo(files: seq<seq<Byte>>, files': seq<seq<Byte>>, size: nat, p: nat, s: seq<Byte>) {
    forall q {:trigger Straight(files', q)} :: 0 <= q < size ==>
      Straight(files', q) == if p <= q < p + |s| then s[q - p] else Straight(files, q)
  }

  lemma FetchedFrom(k: Disk, p: nat, r: seq<Byte>)
    requires k.Valid() && Fetched(k, p, r)
    ensures ReadFrom(Files(k), p, r)
  {
    hide Straight, Disk.Valid, Files, Disk.Shows;
    forall j {:trigger r[j]} | 0 <= j < |r| ensures r[j] == Straight(Files(k), p + j) {
      ShowsStraight(k, p + j);
    }
  }

  lemma WroteTo(k: Disk, k': Disk, p: nat, s: seq<Byte>)
    requires k.Valid() && k'.Valid() && Wrote(k, k', p, s)
    ensures WrittenTo(Files(k), Files(k'), k.top.g.size, p, s)
  {
    hide Straight, Disk.Valid, Files, Disk.Shows;
    forall q {:trigger Straight(Files(k'), q)} | 0 <= q < k.top.g.size
      ensures Straight(Files(k'), q) == if p <= q < p + |s| then s[q - p] else Straight(Files(k), q)
    {
      ShowsStraight(k, q);
      ShowsStraight(k', q);
    }
  }

  /** Two disks with the same contents. */
  lemma SameTo(k: Disk, k': Disk)
    requires k.Valid() && k'.Valid() && k.Over? && k'.Over? && k'.View() == k.View()
    ensures WrittenTo(Files(k), Files(k'), k.top.g.size, 0, [])
  {
    hide Straight, Disk.Valid, Files;
    ViewStraight(k);
    ViewStraight(k');
    var v, w := k.View(), k'.View();
    forall q {:trigger Straight(Files(k'), q)} | 0 <= q < k.top.g.size
      ensures Straight(Files(k'), q) == Straight(Files(k), q)
    {
      assert v[q] == w[q];
    }
  }

  /** One container after it grew: what it had, then zeros. */
  ghost predicate ExtendedTo(d: seq<Byte>, e: seq<Byte>, size: nat, newsize: nat) {
    forall q {:trigger Straight([e], q)} :: 0 <= q < newsize ==>
      Straight([e], q) == if q < size then Straight([d], q) else 0
  }

  lemma ExtendedZeros(a: Layer, b: Layer)
    requires Over(a, Nothing).Valid() && Over(b, Nothing).Valid() && b.g.size >= a.g.size
    requires Over(b, Nothing).View() == Over(a, Nothing).View() + Zeros(b.g.size - a.g.size)
    ensures ExtendedTo(a.d, b.d, a.g.size, b.g.size)
  {
    hide Straight, Disk.Valid, Disk.View, Zeros;
    forall q {:trigger Straight([b.d], q)} | 0 <= q < b.g.size
      ensures Straight([b.d], q) == if q < a.g.size then Straight([a.d], q) else 0
    {
      ByteOfOne(b, q);
      if q < a.g.size {
        ByteOfOne(a, q);
      }
      PastView(Over(a, Nothing).View(), Over(b, Nothing).View(), b.g.size - a.g.size, q);
    }
  }

  lemma PastView(v: seq<Byte>, w: seq<Byte>, n: nat, q: nat)
    requires w == v + Zeros(n) && q < |w|
    ensures w[q] == if q < |v| then v[q] else 0
  {
  }

  lemma ByteOfOne(a: Layer, q: nat)
    requires Over(a, Nothing).Valid() && q < a.g.size
    ensures |Over(a, Nothing).View()| == a.g.size && Over(a, Nothing).View()[q] == Straight([a.d], q)
  {
    hide Straight, Disk.Valid, Disk.Shows;
    OneFile(a);
    ShowsStraight(Over(a, Nothing), q);
    ViewAt(Over(a, Nothing), q);
    hide Files;
  }

  lemma OneFile(a: Layer)
    ensures Files(Over(a, Nothing)) == [a.d]
  {
    assert Files(Nothing) == [];
  }

  /** A block of 2 MiB in sector 4: the bitmap is that sector, the block begins at byte 2560. */
  lemma TwoMebibytes(d: seq<Byte>, p: nat)
    requires |d| >= 2560 + 0x20_0000 && p < 0x20_0000
    requires d[0x210..0x218] == [0, 0, 0, 0, 0, 0, 6, 0] && d[0x220..0x224] == [0, 0x20, 0, 0]
    requires d[1536..1540] == [0, 0, 0, 4]
    ensures Straight([d], p) == if SectorBit(MsbFirst, d[2048 + p / 4096] as int, p / 512 % 8) then d[2560 + p] else 0
  {
    Titles2M(d);
    hide BlockIn, EntryIn, SectorBit;
    assert p / 0x20_0000 == 0 && p % 0x20_0000 == p;
    assert PlaceOf(0x20_0000, 4, p) == 2560 + p;
    assert [d][1..] == [];
  }

  lemma Titles2M(d: seq<Byte>)
    requires |d| >= 1540 && d[0x210..0x218] == [0, 0, 0, 0, 0, 0, 6, 0] && d[0x220..0x224] == [0, 0x20, 0, 0]
    requires d[1536..1540] == [0, 0, 0, 4]
    ensures BlockIn(d) == 0x20_0000 && EntryIn(d, 0) == 4
  {
    var a, b, c := d[0x210..0x218], d[0x220..0x224], d[1536..1540];
    assert forall k :: 0 <= k < 8 ==> d[0x210 + k] == a[k];
    assert forall k :: 0 <= k < 4 ==> d[0x220 + k] == b[k] && d[1536 + k] == c[k];
    assert d[0x216] == a[6] == 6 && d[0x221] == b[1] == 0x20 && d[1539] == c[3] == 4;
    assert Four(d, 0x210) == 0 && Four(d, 0x214) == 1536;
  }
}
