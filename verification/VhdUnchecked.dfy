/** Containers that open although their footer does not carry its checksum, and what the first block added does to them. */
module VhdUnchecked {
  import opened Bytes
  import opened VhdFooter
  import opened VhdLayers
  import opened VhdWrites
  import opened VhdMerge
  import opened VhdImage
  import opened VhdNew
  import opened VhdRuns

  /** A footer with cookie and host, and zeros for a checksum. */
  function UncheckedFooter(kind: Byte): (ft: seq<Byte>)
    ensures |ft| == 512
  {
    [99, 111, 110, 101, 99, 116, 105, 120] + Zeros(0x1C) + [87, 105, 50, 107] + Zeros(14) + [4] + Zeros(8) + [kind] +
    Zeros(448)
  }

  /** The entry of a parent locator: two bytes at 2048. Only a differencing image looks at it. */
  function ParentLocator(): (l: seq<Byte>)
    ensures |l| == 24
  {
    [87, 50, 107, 117, 0, 0, 2, 0, 0, 0, 0, 2, 0, 0, 0, 0, 0, 0, 0, 0, 0, 0, 8, 0]
  }

  /** A header with cookie, two blocks of a sector each, a parent locator, and zeros for a checksum. */
  function TwoBlockHeader(): (h: seq<Byte>)
    ensures |h| == 1024
  {
    [99, 120, 115, 112, 97, 114, 115, 101] + Zeros(0x0E) + [6] + Zeros(8) + [2, 0, 0, 2] + Zeros(0x21D) +
    ParentLocator() + Zeros(0x1A8)
  }

  /** The sector with the parent's name. */
  function ParentName(): (s: seq<Byte>)
    ensures |s| == 512
  {
    [112, 0] + Zeros(510)
  }

  const TWO: Geo := Geo(1024, 512, 1536, 2)

  /** A container of two empty blocks with that footer. */
  function UncheckedContainer(kind: Byte): seq<Byte> {
    Container(UncheckedFooter(kind), TwoBlockHeader(), TWO.TableSize(), ParentName())
  }

  /** What opening asks besides: cookie and host in both footers, the header's cookie, and for a differencing image an
      entry that leads to a name inside the file, and the parent's identifier, like this file's own. */
  predicate Demanded(d: seq<Byte>) {
    && |d| >= 2560 && Twins(d) && Signed(d)
    && d[0x440..0x444] == [87, 50, 107, 117] && 0 < U32BE(d, 0x448)
    && 0x1_0000_0000 * U32BE(d, 0x450) + U32BE(d, 0x454) + U32BE(d, 0x448) <= |d|
    && d[0x44..0x54] == d[0x228..0x238]
  }

  lemma FooterFields(kind: Byte, ft: seq<Byte>)
    requires ft == UncheckedFooter(kind)
    ensures ft[..8] == [99, 111, 110, 101, 99, 116, 105, 120] && ft[0x24..0x28] == [87, 105, 50, 107]
    ensures ft[0x44..0x54] == Zeros(16)
  {
  }

  lemma HeaderFields(h: seq<Byte>)
    requires h == TwoBlockHeader()
    ensures h[..8] == [99, 120, 115, 112, 97, 114, 115, 101] && h[0x28..0x38] == Zeros(16)
    ensures h[0x240..0x258] == ParentLocator()
  {
  }

  lemma UncheckedDemanded(kind: Byte)
    requires Twins(UncheckedContainer(kind))
    ensures Demanded(UncheckedContainer(kind))
  {
    hide Twins, UncheckedFooter, TwoBlockHeader, ParentName;
    var d, ft, h := UncheckedContainer(kind), UncheckedFooter(kind), TwoBlockHeader();
    assert d[..512] == ft == d[2560..] && d[512..1536] == h && |d| == 3072;
    hide UncheckedContainer;
    FooterFields(kind, ft);
    HeaderFields(h);
    assert d[..8] == d[..512][..8] && d[0x24..0x28] == d[..512][0x24..0x28] && d[0x44..0x54] == d[..512][0x44..0x54];
    assert d[2560..2568] == d[2560..][..8] && d[2596..2600] == d[2560..][0x24..0x28];
    assert d[0x200..0x208] == d[512..1536][..8] && d[0x228..0x238] == d[512..1536][0x28..0x38];
    assert d[0x440..0x458] == d[512..1536][0x240..0x258];
    assert d[0x440..0x444] == d[0x440..0x458][..4];
    forall k | 0x440 <= k < 0x458 ensures d[k] == ParentLocator()[k - 0x440] {
      assert d[k] == d[0x440..0x458][k - 0x440];
    }
  }

  /** Over nothing or over another such it is laid out and opens, and its footer does not carry its checksum. */
  lemma UncheckedReached(under: Disk)
    requires under.Valid() && under.Opens() && (under.Over? ==> under.top.g == TWO)
    ensures var a := Layer(UncheckedContainer(Kindred(under)), TWO, 2560);
      Over(a, under).Valid() && Over(a, under).Opens() && Demanded(a.d) && !CarriesChecksum(Lead(a.d), CHECKSUM) &&
      GeoIn(a.d) == a.g
  {
    var kind := Kindred(under);
    UncheckedTitles(kind);
    hide UncheckedFooter, TwoBlockHeader, ParentName, Demanded, Describes, Container;
    hide Disk.Valid, Disk.Opens, CarriesChecksum, Lead, Trail, GeoIn;
    var a := NewDisk(UncheckedFooter(kind), TwoBlockHeader(), TWO, ParentName(), under);
    assert TWO.TableSize() == 512;
    UncheckedDemanded(kind);
  }

  /** The type of an image over that disk. */
  function Kindred(under: Disk): (kind: Byte)
    ensures kind == if under.Nothing? then 3 else 4
  {
    if under.Nothing? then 3 else 4
  }

  lemma UncheckedEmpty(kind: Byte)
    ensures Layer(UncheckedContainer(kind), TWO, 2560).Held() == {}
  {
    hide UncheckedFooter, TwoBlockHeader, ParentName, Container, Layer.Has;
    var a := Layer(UncheckedContainer(kind), TWO, 2560);
    NewUnused(UncheckedFooter(kind), TwoBlockHeader(), TWO, ParentName(), a, 0);
    NewUnused(UncheckedFooter(kind), TwoBlockHeader(), TWO, ParentName(), a, 1);
  }

  lemma UncheckedTitles(kind: Byte)
    ensures Describes(UncheckedFooter(kind), TwoBlockHeader(), TWO, kind) && TWO.Valid()
    ensures !CarriesChecksum(UncheckedFooter(kind), CHECKSUM)
  {
    var ft := UncheckedFooter(kind);
    assert ft[CHECKSUM..CHECKSUM + 4] == [0, 0, 0, 0];
    ZeroesNever(ft, CHECKSUM);
    TitleFields(ft, TwoBlockHeader(), TWO, kind);
  }

  lemma TitleFields(ft: seq<Byte>, h: seq<Byte>, g: Geo, kind: Byte)
    requires |ft| == 512 && |h| == 1024 && g == TWO
    requires forall k {:trigger ft[k]} :: 0x30 <= k < 0x40 ==> ft[k] == if k == 0x36 then 4 else if k == 0x3F then kind else 0
    requires forall k {:trigger h[k]} :: 0x10 <= k < 0x24 ==>
      h[k] == if k == 0x16 then 6 else if k == 0x1F || k == 0x22 then 2 else 0
    ensures Describes(ft, h, g, kind) && g.Valid()
  {
  }

  /** One byte written to a container whose footer carries no checksum, and it does not open any more. */
  method NotAgain() returns (image: Image, again: Image?)
    ensures fresh(image) && image.Valid() && |image.Line().View()| == 1024 && image.Line().View()[0] == 1 && again == null
  {
    hide *;
    NoLine();
    NewOpens(Nothing);
    var stream := new File(UncheckedContainer(3));
    image := new Image(stream, null, 2560);
    NewIs(image, [1]);
    ghost var k := image.Line();
    image.Write([1]);
    ShowsAt(image, k, [1], 0);
    again := Again(image);
  }

  /** A child of two blocks with a one in each, merged into such a parent: after the first block it does not open. */
  method MergeStops() returns (child: Image, r: Outcome)
    ensures fresh(child) && r == Unopened(1)
  {
    hide *;
    NoLine();
    NewOpens(Nothing);
    var below := new File(UncheckedContainer(3));
    var parent := new Image(below, null, 2560);
    NewIs(parent, [1]);
    NewOpens(parent.Line());
    IsUntouched(parent.Line());
    var stream := new File(UncheckedContainer(4));
    child := new Image(stream, parent, 2560);
    NewIs(child, Edges());
    parent.UpParts();
    child.UpParts();
    r := FillAndMerge(child);
  }

  /** Such a container by itself, no block in it yet. */
  ghost predicate Untouched(u: Disk) {
    && u.Over? && u.under.Nothing? && u.top.g == TWO && u.top.Held() == {} && u.Opens()
    && !CarriesChecksum(Lead(u.top.d), CHECKSUM)
  }

  lemma IsUntouched(u: Disk)
    requires u.Over? && u.under.Nothing? && u.top.g == TWO && u.top.Held() == {} && u.Opens()
    requires !CarriesChecksum(Lead(u.top.d), CHECKSUM)
    ensures Untouched(u)
  {
  }

  method FillAndMerge(child: Image) returns (r: Outcome)
    requires child.Valid() && child.parent != null && child.pos == 0 && child.g == TWO
    requires Untouched(child.Under())
    modifies child, child.stream, child.bat, child.upImages, child.upBats, child.upFiles
    ensures r == Unopened(1)
  {
    hide *;
    NoLine();
    child.UpParts();
    child.LineIs();
    ghost var k := child.Line();
    var s := Edges();
    child.Write1(s);
    ShowsAt(child, k, s, 0);
    ShowsAt(child, k, s, 512);
    child.LineIs();
    StuckNext(child.Line());
    child.UpParts();
    r := child.Merge();
  }

  function Edges(): (s: seq<Byte>)
    ensures |s| == 513 && s[0] == s[512] == 1
  {
    [1] + Zeros(511) + [1]
  }

  lemma NoLine()
    ensures LineOf(null) == Nothing && TWO == Geo(1024, 512, 1536, 2) && Disk.Nothing.Valid() && Disk.Nothing.Opens()
  {
  }

  lemma NewOpens(u: Disk)
    requires u.Valid() && u.Opens() && (u.Over? ==> u.top.g == TWO)
    ensures var d := UncheckedContainer(Kindred(u));
      && Over(Layer(d, GeoIn(d), 2560), u).Valid() && Over(Layer(d, GeoIn(d), 2560), u).Opens() && Twins(d)
      && GeoIn(d) == TWO && !CarriesChecksum(Lead(d), CHECKSUM)
  {
    UncheckedReached(u);
    hide Disk.Valid, UncheckedContainer, CarriesChecksum, Twins, GeoIn;
  }

  /** What there is to know about an image of such a container. */
  lemma NewIs(image: Image, s: seq<Byte>)
    requires image.Valid() && image.g == TWO && image.start == 2560 && 0 < |s| <= 1024 && s[0] != 0
    requires image.stream.data == UncheckedContainer(if image.parent == null then 3 else 4) && Twins(image.stream.data)
    ensures image.Linked() && LineOf(image) == image.Line() == Over(image.Top(), image.Under()) && image.Line().Valid()
    ensures image.parent == null ==> image.Under() == Nothing && image.Line().Opens()
    ensures image.Top().d == image.stream.data && image.Top().g == TWO && image.Top().Held() == {} && !(Needed(TWO, image.Under(), 0, s) <= {})
  {
    hide Disk.Valid, UncheckedContainer, Twins, Layer.Has, Needed;
    image.UpParts();
    image.LineIs();
    UncheckedEmpty(if image.parent == null then 3 else 4);
    FirstNeeded(image.Under(), s);
  }

  lemma FirstNeeded(u: Disk, s: seq<Byte>)
    requires 0 < |s| && s[0] != 0
    ensures !(Needed(TWO, u, 0, s) <= {})
  {
    assert Counts(TWO, u, 0, s, 0);
    assert BlkOf(TWO, 0, 0) in Needed(TWO, u, 0, s);
  }

  lemma ShowsAt(image: Image, k: Disk, s: seq<Byte>, j: nat)
    requires image.Valid() && image.g == TWO && Wrote(k, image.Line(), 0, s) && j < |s| <= 1024
    ensures image.Linked() && image.Line().Over? && image.Line().top.g == TWO && |image.Line().View()| == 1024 && image.Line().Shows(j) == image.Line().View()[j] == s[j]
  {
    image.UpParts();
    image.LineIs();
    var k' := image.Line();
    assert k'.top.g == TWO;
    hide Image.Valid, Disk.Shows;
    assert k'.Shows(j) == s[j];
    ViewAt(k', j);
  }

  lemma NotHeld(a: Layer, i: nat)
    requires a.Held() == {} && i < a.g.entries
    ensures !a.Has(i)
  {
    assert i !in a.Held();
  }

  /** The first block is one the parent has to get, and the second waits. */
  lemma StuckNext(k: Disk)
    requires k.Over? && Untouched(k.under) && k.top.g == TWO && k.Shows(0) == 1 && k.Shows(512) == 1
    ensures k.under.Over? && Stuck(k, 1) && !Stuck(k, 0)
  {
    hide CarriesChecksum, Layer.BitOf, BE32;
    assert TWO.Blk(0) == 0 && TWO.Blk(512) == 1 && TWO.Off(0) == 0 && TWO.Off(512) == 0;
    assert k == Over(k.top, k.under) && k.under == Over(k.under.top, Nothing) && Disk.Nothing.Shows(0) == Disk.Nothing.Shows(512) == 0;
    NotHeld(k.under.top, 0);
    NotHeld(k.under.top, 1);
    assert k.under.Shows(0) == 0 && k.under.Shows(512) == 0;
    assert k.top.Has(0) && k.top.BitOf(0, 0) && k.top.Cell(0, 0) == 1 && k.top.Has(1);
    assert Weighs(k, 0, 0);
    assert Wanted(k, 0, 8 * TWO.Bm());
    assert Received(k, 0) == {} && 0 in Received(k, 1);
  }
}
