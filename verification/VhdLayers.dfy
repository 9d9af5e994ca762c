/** A VHD container as the disk bytes it shows: block table, sector bitmaps, and the images underneath. */
module VhdLayers {
  import opened Bytes
  import opened BlockBitmaps
  import opened VhdFooter

  /** Table entry of a block the image does not hold. */
  const UNUSED: nat := 0xFFFF_FFFF

  function BE32(d: seq<Byte>, k: int): nat {
    0x100_0000 * At(d, k) + 0x1_0000 * At(d, k + 1) + 256 * At(d, k + 2) + At(d, k + 3)
  }

  function BE64(d: seq<Byte>, k: int): nat { 0x1_0000_0000 * BE32(d, k) + BE32(d, k + 4) }

  /** The geometry an image is opened with: footer copy in sector 0, header in sectors 1 and 2. */
  function GeoIn(d: seq<Byte>): Geo {
    Geo(BE64(d, 0x30), BE32(d, 512 + 0x20), BE64(d, 512 + 0x10), BE32(d, 512 + 0x1C))
  }

  /** Disk type in the footer copy: 3 is dynamic, 4 is differencing. */
  function Kind(d: seq<Byte>): nat { BE32(d, 0x3C) }

  lemma PackedBE32(d: seq<Byte>, k: nat, v: nat)
    requires v <= UNUSED
    ensures BE32(Overwrite(d, k, Pack32BE(v)), k) == v
  {
    var s := Pack32BE(v);
    assert U32BE(s, 0) == v;
    AtOverwrite(d, k, s, k);
    AtOverwrite(d, k, s, k + 1);
    AtOverwrite(d, k, s, k + 2);
    AtOverwrite(d, k, s, k + 3);
  }

  /** The geometry in footer and header: disk size, block size, place and length of the block table. */
  datatype Geo = Geo(size: nat, block: nat, table: nat, entries: nat) {
    function Bm(): nat { Max(512, block / 512 / 8) }

    function Raw(): nat { Bm() + block }

    /** Bytes the block table takes, in whole sectors. */
    function TableSize(): nat { (4 * entries + 511) / 512 * 512 }

    ghost predicate Valid() {
      && block > 0 && block % 512 == 0 && Bm() % 512 == 0 && block / 512 <= 8 * Bm()
      && size % 512 == 0 && size <= Pos(entries, 0) && 1536 <= table
    }

    function Blk(p: nat): nat { if block == 0 then 0 else p / block }

    function Off(p: nat): (o: nat)
      ensures block > 0 ==> o < block
    {
      if block == 0 then p else p % block
    }

    function Pos(i: nat, o: nat): nat { i * block + o }

    lemma Split(p: nat)
      requires block > 0
      ensures Pos(Blk(p), Off(p)) == p
    {
    }

    lemma Join(i: nat, o: nat)
      requires o < block
      ensures Blk(Pos(i, o)) == i && Off(Pos(i, o)) == o
    {
      Unique(block, i, o, Pos(i, o) / block, Pos(i, o) % block);
    }

    lemma Inside(p: nat)
      requires block > 0 && p < Pos(entries, 0)
      ensures Blk(p) < entries
    {
      Split(p);
      if Blk(p) >= entries {
        Mono(entries, Blk(p), block);
      }
    }

    /** The bytes of one block lie together. */
    lemma Along(p: nat, n: nat)
      requires block > 0 && Off(p) + n < block
      ensures Blk(p + n) == Blk(p) && Off(p + n) == Off(p) + n
    {
      Split(p);
      Join(Blk(p), Off(p) + n);
    }
  }

  lemma Unique(m: nat, q: nat, r: nat, q': nat, r': nat)
    requires m > 0 && r < m && r' < m && q * m + r == q' * m + r'
    ensures q == q' && r == r'
  {
    if q < q' {
      Mono(q + 1, q', m);
    } else if q' < q {
      Mono(q' + 1, q, m);
    }
  }

  /** One container; start is the first byte a data block may take. */
  datatype Layer = Layer(d: seq<Byte>, g: Geo, start: nat) {
    function Slot(i: nat): nat { g.table + 4 * i }

    function Entry(i: nat): nat { BE32(d, Slot(i)) }

    predicate Has(i: nat) { Entry(i) != UNUSED }

    function Base(i: nat): nat { Entry(i) * 512 }

    /** The bitmap bit of a sector of a block, and a byte of the block. */
    predicate BitOf(i: nat, sec: nat) {
      IsSet(MsbFirst, [At(d, Base(i) + sec / 8)], sec % 8)
    }

    function Cell(i: nat, o: nat): Byte { At(d, Base(i) + g.Bm() + o) }

    predicate Holds(p: nat) { Has(g.Blk(p)) && BitOf(g.Blk(p), g.Off(p) / 512) }

    /** What the container shows at a disk position when the images under it show a given byte. */
    function Shown(p: nat, under: Byte): Byte { if Holds(p) then Cell(g.Blk(p), g.Off(p)) else under }

    /** How many of the first n blocks have been allocated. */
    function Used(n: nat): nat {
      if n == 0 then 0 else Used(n - 1) + if Has(n - 1) then 1 else 0
    }

    /** The blocks the container holds. */
    ghost function Held(): set<nat> { set i | 0 <= i < g.entries && Has(i) }

    ghost predicate Framed() {
      && g.Valid() && Slot(g.entries) <= start && g.table + g.TableSize() <= start && start % 512 == 0
      && |d| == start + 512 + Used(g.entries) * g.Raw()
      && start + g.entries * g.Raw() <= 512 * UNUSED
    }

    /** Blocks lie between the table and the footer. */
    ghost predicate Placed() {
      forall i {:trigger Has(i)} :: 0 <= i < g.entries && Has(i) ==> start <= Base(i) && Base(i) + g.Raw() <= |d| - 512
    }

    ghost predicate Disjoint() {
      forall i, j {:trigger Has(i), Has(j)} :: 0 <= i < g.entries && 0 <= j < g.entries && i != j && Has(i) && Has(j) ==>
        Base(i) + g.Raw() <= Base(j) || Base(j) + g.Raw() <= Base(i)
    }

    /** Only sectors of the disk are marked as held. */
    ghost predicate Marked(i: nat) {
      forall sec {:trigger BitOf(i, sec)} :: 0 <= sec < 8 * g.Bm() && BitOf(i, sec) ==>
        512 * sec < g.block && g.Pos(i, 512 * sec) < g.size
    }

    ghost predicate AllMarked() {
      forall i {:trigger Has(i)} :: 0 <= i < g.entries && Has(i) ==> Marked(i)
    }

    /** Headers that give the geometry, and in the last sector the footer of the first, packed or as it is. */
    ghost predicate Sealed() { GeoIn(d) == g && Kin(d) }

    /** The slots past the table, to the end of its last sector, read as unused. */
    ghost predicate Padded() {
      forall k {:trigger At(d, k)} :: Slot(g.entries) <= k < g.table + g.TableSize() ==> At(d, k) == 0xFF
    }

    ghost predicate Layout() { Framed() && Sealed() && Padded() && Placed() && Disjoint() && AllMarked() }

    ghost predicate BlankIn(i: nat) {
      forall o {:trigger Cell(i, o)} :: 0 <= o < g.block && !BitOf(i, o / 512) ==> Cell(i, o) == 0
    }

    /** Sectors not marked hold zeros. */
    ghost predicate Blank() {
      forall i {:trigger Has(i)} :: 0 <= i < g.entries && Has(i) ==> BlankIn(i)
    }
  }

  /** An image over the images it descends from. */
  datatype Disk = Nothing | Over(top: Layer, under: Disk) {
    ghost predicate Valid() {
      match this
      case Nothing => true
      case Over(top, under) =>
        && top.Layout() && (under.Nothing? ==> top.Blank())
        && Kind(top.d) == (if under.Nothing? then 3 else 4)
        && (under.Over? ==> SameShape(top.g, under.top.g)) && under.Valid()
    }

    /** Every container of the line can be opened again: its footer and the copy are the same. */
    ghost predicate Opens() {
      match this
      case Nothing => true
      case Over(top, under) => Twins(top.d) && under.Opens()
    }

    function Shows(p: nat): Byte {
      match this
      case Nothing => 0
      case Over(top, under) => top.Shown(p, under.Shows(p))
    }

    /** Some image of the line holds the block. */
    ghost predicate Known(i: nat) {
      match this
      case Nothing => false
      case Over(top, under) => top.Has(i) || under.Known(i)
    }

    /** The contents of the virtual disk. */
    ghost function View(): (v: seq<Byte>)
      requires Over?
      ensures |v| == top.g.size
    {
      seq(top.g.size, p requires 0 <= p < top.g.size => Shows(p))
    }
  }

  ghost predicate SameShape(a: Geo, b: Geo) {
    a.size == b.size && a.block == b.block && a.entries == b.entries
  }

  lemma ViewAt(k: Disk, p: nat)
    requires k.Over? && p < k.top.g.size
    ensures k.View()[p] == k.Shows(p)
  {
  }

  /** A block no image of the line holds reads as zeros. */
  lemma {:induction false} UnknownIsZero(k: Disk, p: nat)
    requires k.Valid() && (k.Over? ==> !k.Known(k.top.g.Blk(p)))
    ensures k.Shows(p) == 0
  {
    if k.Over? && k.under.Over? {
      assert k.top.g.Blk(p) == k.under.top.g.Blk(p);
      UnknownIsZero(k.under, p);
    } else if k.Over? {
      UnknownIsZero(k.under, p);
    }
  }
}
