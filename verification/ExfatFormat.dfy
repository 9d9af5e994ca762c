/** Sizing an exFAT volume, and the whole way from a raw disk to its one partition and cluster size. */
module ExfatFormat {
  import opened Bytes
  import G = DiskGeometry
  import VhdExpand

  const SECTOR: nat := 512
  const MAX_CLUSTERS: nat := 0xFFFF_FFF6

  /** Bytes of one FAT for n clusters: two more slots of four bytes, in whole sectors. */
  function FatBytes(n: int): int { (4 * (n + 2) + SECTOR - 1) / SECTOR * SECTOR }

  datatype Volume = Volume(size: nat, reserved: nat, copies: nat, padding: nat) {
    function Required(cluster: nat, n: int): int {
      cluster * n + copies * FatBytes(n) + reserved + padding
    }

    function Estimate(cluster: nat): int
      requires cluster > 0
    {
      (size - reserved) / cluster
    }

    /** The count after taking off, once, the clusters that stand for what is too much. */
    function Corrected(cluster: nat): int
      requires cluster > 0
    {
      var n := Estimate(cluster);
      var over := Required(cluster, n) - size;
      if over <= 0 then n else n - (over + cluster - 1) / cluster
    }
  }

  datatype Format = Format(required: int, reserved: nat, cluster: nat, clusters: int, fatSize: int)

  lemma Fewer(a: int, b: int)
    requires a <= b
    ensures FatBytes(a) <= FatBytes(b)
  {
  }

  /** One correction is enough. */
  lemma CorrectedFits(v: Volume, cluster: nat)
    requires cluster > 0
    ensures v.Required(cluster, v.Corrected(cluster)) <= v.size
  {
    var n := v.Estimate(cluster);
    var over := v.Required(cluster, n) - v.size;
    if over > 0 {
      var k := (over + cluster - 1) / cluster;
      RoundUp(over, cluster);
      Fewer(n - k, n);
      Mono(FatBytes(n - k), FatBytes(n), v.copies);
      Without(cluster, n, k);
      hide FatBytes;
    }
  }

  lemma Without(m: int, n: int, k: int)
    ensures m * (n - k) == m * n - m * k
  {
  }

  lemma RoundUp(a: nat, m: nat)
    requires m > 0
    ensures m * ((a + m - 1) / m) >= a && (a > 0 ==> (a + m - 1) / m > 0)
  {
    var q, r := (a + m - 1) / m, (a + m - 1) % m;
    assert a + m - 1 == m * q + r;
    AtLeast(a, m, q, r);
  }

  lemma AtLeast(a: nat, m: nat, q: nat, r: nat)
    requires r < m && a + m - 1 == m * q + r
    ensures m * q >= a && (a > 0 ==> q > 0)
  {
  }

  /** The sizing loop for one cluster size; the ghost result counts the corrections. */
  method Fit(v: Volume, cluster: nat) returns (ok: bool, f: Format, ghost corrections: nat)
    requires cluster > 0
    ensures corrections <= 1
    ensures ok <==> v.Estimate(cluster) <= MAX_CLUSTERS && 1 <= v.Corrected(cluster) <= MAX_CLUSTERS
    ensures ok ==> f.clusters == v.Corrected(cluster) && f.fatSize == FatBytes(f.clusters) && f.required == v.Required(cluster, f.clusters)
    ensures ok ==> f.required <= v.size && f.cluster == cluster && f.reserved == v.reserved
    ensures ok ==> Sizing(v, cluster, f.clusters, f.fatSize, f.required)
  {
    hide Sizing, FatBytes, Volume.Required, Volume.Estimate;
    corrections := 0;
    f := Format(0, 0, 0, 0, 0);
    CorrectedFits(v, cluster);
    var clusters := v.Estimate(cluster);
    if clusters > MAX_CLUSTERS {
      return false, f, corrections;
    }
    var fatSize, required := FatBytes(clusters), v.Required(cluster, clusters);
    while required > v.size
      invariant fatSize == FatBytes(clusters) && required == v.Required(cluster, clusters)
      invariant corrections == 0 ==> clusters == v.Estimate(cluster)
      invariant corrections > 0 ==> corrections == 1 && clusters == v.Corrected(cluster) && required <= v.size
      invariant corrections == 0 && required <= v.size ==> clusters == v.Corrected(cluster)
      decreases 1 - corrections
    {
      clusters := clusters - (required - v.size + cluster - 1) / cluster;
      fatSize := FatBytes(clusters);
      required := v.Required(cluster, clusters);
      corrections := corrections + 1;
    }
    ok := 1 <= clusters <= MAX_CLUSTERS;
    if ok {
      SizingIs(v, cluster, clusters);
    }
    f := Format(required, v.reserved, cluster, clusters, fatSize);
  }

  /** What n clusters of that size take, in numbers: a FAT slot of four bytes for each and for two more, whole
      sectors. */
  predicate Takes(v: Volume, cluster: nat, n: int, fat: int, all: int) {
    && fat % 512 == 0 && 4 * n + 8 <= fat < 4 * n + 520
    && all == cluster * n + v.copies * fat + v.reserved + v.padding
  }

  /** The clusters e that fit without a FAT, less, once, just enough of them for what is then too much. */
  predicate TakenOff(v: Volume, cluster: nat, e: int, n: int, fat: int, all: int) {
    && Takes(v, cluster, e, fat, all)
    && (all <= v.size ==> n == e)
    && (all > v.size ==> cluster * (e - n) - cluster < all - v.size <= cluster * (e - n))
  }

  ghost predicate Sizing(v: Volume, cluster: nat, n: int, fat: int, all: int)
    requires cluster > 0
  {
    var e: int := (v.size - v.reserved) / cluster;
    && Takes(v, cluster, n, fat, all) && all <= v.size && 1 <= n <= e <= 4294967286
    && exists was: int, too: int :: TakenOff(v, cluster, e, n, was, too)
  }

  lemma TakesIs(v: Volume, cluster: nat, n: int)
    ensures Takes(v, cluster, n, FatBytes(n), v.Required(cluster, n))
  {
  }

  lemma SizingIs(v: Volume, cluster: nat, n: int)
    requires cluster > 0 && v.Estimate(cluster) <= MAX_CLUSTERS && 1 <= n == v.Corrected(cluster)
    ensures Sizing(v, cluster, n, FatBytes(n), v.Required(cluster, n))
  {
    CorrectedFits(v, cluster);
    TakesIs(v, cluster, n);
    var e := v.Estimate(cluster);
    TakesIs(v, cluster, e);
    var over := v.Required(cluster, e) - v.size;
    hide FatBytes, Volume.Required, Takes;
    if over > 0 {
      RoundUp(over, cluster);
      RoundTight(over, cluster);
    }
    assert TakenOff(v, cluster, e, n, FatBytes(e), v.Required(cluster, e));
  }

  lemma RoundTight(a: nat, m: nat)
    requires m > 0
    ensures m * ((a + m - 1) / m) - m < a
  {
    assert (a + m - 1) / m * m <= a + m - 1;
  }

  // ---- the boot record ----

  /** Where the record puts FAT and cluster heap, in sectors. */
  datatype Boot = Boot(fatOffset: int, fatLength: int, heapOffset: int, clusters: int, cluster: nat) {
    function Fat(k: nat): int { (fatOffset + k * fatLength) * SECTOR }

    function Heap(): int { heapOffset * SECTOR }

    function ClusterOffset(c: nat): int { Heap() + (c - 2) * cluster }
  }

  /** The padding, given in bytes, is added to a sector number; further FAT copies are not. */
  function BootFor(f: Format, v: Volume): Boot {
    Boot(f.reserved / SECTOR, f.fatSize / SECTOR, f.reserved / SECTOR + f.fatSize / SECTOR + v.padding, f.clusters,
        f.cluster)
  }

  ghost predicate Sized(v: Volume, f: Format) {
    && f.cluster > 0 && f.clusters >= 1 && f.fatSize == FatBytes(f.clusters) && f.required == v.Required(f.cluster,
        f.clusters) <= v.size
    && f.reserved == v.reserved && v.reserved % SECTOR == 0
  }

  lemma WholeFat(n: int)
    ensures FatBytes(n) % SECTOR == 0 && FatBytes(n) / SECTOR * SECTOR == FatBytes(n) && 4 * (n + 2) <= FatBytes(n)
  {
  }

  /** With one FAT and no padding: boot region, FAT and heap follow one another, inside the volume, and every
      cluster has its slot. */
  lemma ExfatAreas(v: Volume, f: Format, c: nat)
    requires Sized(v, f) && v.copies == 1 && v.padding == 0 && 2 <= c < f.clusters + 2
    ensures var b := BootFor(f, v);
      && b.Fat(0) == v.reserved && b.Fat(1) == v.reserved + f.fatSize == b.Heap() && 4 * (f.clusters + 2) <= f.fatSize
      && 512 * b.fatOffset == v.reserved && 512 * b.fatLength == f.fatSize && b.clusters == f.clusters
      && 512 * b.heapOffset == v.reserved + f.fatSize && b.cluster == f.cluster
      && b.ClusterOffset(c) == 512 * b.heapOffset + (c - 2) * f.cluster
      && b.Heap() <= b.ClusterOffset(c) && b.ClusterOffset(c) + f.cluster <= b.ClusterOffset(f.clusters + 2) <= v.size
  {
    WholeFat(f.clusters);
    hide FatBytes;
    Mono(c - 1, f.clusters, f.cluster);
    assert (c - 1) * f.cluster == (c - 2) * f.cluster + f.cluster;
    assert (c - 2) * f.cluster >= 0;
  }

  /** FATs and heap are apart exactly if the padding, taken for sectors, makes room for the further copies: the heap
      does not. */
  lemma FatsApartExactly(v: Volume, f: Format)
    requires Sized(v, f) && v.copies > 0
    ensures BootFor(f, v).Fat(v.copies) <= BootFor(f, v).Heap() <==> (v.copies - 1) * BootFor(f, v).fatLength <= v.padding
    ensures v.padding == 0 ==> (BootFor(f, v).Fat(v.copies) <= BootFor(f, v).Heap() <==> v.copies == 1)
  {
    WholeFat(f.clusters);
    hide FatBytes;
    var q := f.fatSize / SECTOR;
    assert q > 0;
    assert v.copies * q == (v.copies - 1) * q + q;
    if v.copies > 1 {
      Mono(1, v.copies - 1, q);
    }
  }

  /** The heap ends inside the volume exactly if what the further copies and the slack leave makes up for the padding:
      511 bytes too many for each byte of it. */
  lemma HeapInsideExactly(v: Volume, f: Format)
    requires Sized(v, f) && v.copies > 0
    ensures BootFor(f, v).ClusterOffset((f.clusters + 2) as nat) <= v.size <==>
        511 * v.padding <= v.size - f.required + (v.copies - 1) * f.fatSize
  {
    WholeFat(f.clusters);
    hide FatBytes;
    assert (f.clusters + 2 - 2) * f.cluster == f.cluster * f.clusters;
    assert v.copies * f.fatSize == (v.copies - 1) * f.fatSize + f.fatSize;
  }

  /** A volume of 1024 sectors with two FATs, as the loop sizes it: the second FAT lies in the heap. */
  lemma SecondFatInHeap() returns (v: Volume, f: Format)
    ensures v == Volume(1024 * SECTOR, 128 * SECTOR, 2, 0) && v.Corrected(512) == f.clusters && Sized(v, f)
    ensures BootFor(f, v).Fat(1) == BootFor(f, v).Heap() < BootFor(f, v).Fat(2)
  {
    v := Volume(1024 * SECTOR, 128 * SECTOR, 2, 0);
    f := Format(v.Required(512, 880), v.reserved, 512, 880, FatBytes(880));
    assert FatBytes(896) == 8 * SECTOR;
  }

  /** The same with one FAT and 1024 bytes of padding: the last clusters lie past the end. */
  lemma HeapPastEnd() returns (v: Volume, f: Format)
    ensures v == Volume(1024 * SECTOR, 128 * SECTOR, 1, 1024) && v.Corrected(512) == f.clusters && Sized(v, f)
    ensures BootFor(f, v).ClusterOffset((f.clusters + 2) as nat) > v.size
  {
    v := Volume(1024 * SECTOR, 128 * SECTOR, 1, 1024);
    var n := v.Corrected(512);
    f := Format(v.Required(512, n), v.reserved, 512, n, FatBytes(n));
  }

  // ---- the cluster size for a partition ----

  const MIB: nat := 0x10_0000
  const GIB: nat := 0x4000_0000

  /** recommended_exfat_cluster_size */
  function Recommended(size: nat): nat {
    if size <= 256 * MIB then 0x1000 else if size <= 32 * GIB then 0x8000 else 0x2_0000
  }

  /** The volume exfat_mkfs sees by default. */
  function DefaultVolume(size: nat): Volume { Volume(size, 128 * SECTOR, 1, 0) }

  /** A few clusters of 4096 bytes or more always survive the correction. */
  lemma EnoughLeft(size: nat, cluster: nat)
    requires cluster >= 4096 && (size - 128 * SECTOR) / cluster >= 4 && size >= 128 * SECTOR
    ensures 1 <= DefaultVolume(size).Corrected(cluster) <= (size - 128 * SECTOR) / cluster
  {
    var v, n := DefaultVolume(size), (size - 128 * SECTOR) / cluster;
    var over := v.Required(cluster, n) - size;
    if over > 0 {
      assert cluster * n <= size - 128 * SECTOR;
      assert over <= FatBytes(n) <= 4 * (n + 2) + 511;
      LessPer(over, cluster, n);
    }
  }

  lemma LessPer(over: nat, cluster: nat, n: nat)
    requires 0 < over <= 4 * n + 519 && cluster >= 4096 && n >= 4
    ensures 0 < (over + cluster - 1) / cluster < n
  {
    RoundUp(over, cluster);
    if (over + cluster - 1) / cluster >= n {
      Mono(n, (over + cluster - 1) / cluster, cluster);
      Mono(4096, cluster, n);
      assert cluster * ((over + cluster - 1) / cluster) <= over + cluster - 1;
      assert cluster * n >= 4096 * n;
      Tight(cluster, n, over);
    }
  }

  lemma Tight(cluster: nat, n: nat, over: nat)
    requires cluster >= 4096 && n >= 4 && over <= 4 * n + 519
    ensures cluster * n > over + cluster - 1
  {
    Mono(4096, cluster, n - 1);
    assert cluster * n == cluster * (n - 1) + cluster;
    assert (n - 1) * 4096 <= (n - 1) * cluster;
  }

  /** The recommended cluster size is always among those the formatter allows. */
  lemma RecommendedAllowed(size: nat)
    requires 32 * MIB <= size <= 0xFFFF_FFFF * SECTOR
    ensures var v := DefaultVolume(size); var c := Recommended(size);
      v.Estimate(c) <= MAX_CLUSTERS && 1 <= v.Corrected(c) <= MAX_CLUSTERS
  {
    hide Volume.Corrected;
    EnoughLeft(size, Recommended(size));
  }

  // ---- from the raw disk ----

  datatype Layout = Refused | Layout(offset: nat, size: nat, format: Format, entry: G.Entry)

  /** Heads and track size the MBR starts from: those of a VHD footer, or worked out. */
  lemma VhdAddressable(size: nat)
    requires 64 * MIB <= size
    ensures var (cth, hh, spt) := VhdExpand.Tracks(Min(size / SECTOR, 65535 * 16 * 255));
      G.Addressable(hh, spt, size - MIB - 33 * SECTOR)
  {
    var sectors := Min(size / SECTOR, 65535 * 16 * 255);
    var (cth, hh, spt) := VhdExpand.Tracks(sectors);
    if sectors >= 65535 * 16 * 63 {
      assert (size - MIB - 33 * SECTOR) / SECTOR >= sectors - 2081;
      assert hh * spt == 4080;
    } else {
      assert 0 < hh <= 16 && 0 < spt <= 63 by {
        TracksUsable(sectors);
      }
      Mono(hh, 16, spt);
    }
  }

  lemma TracksUsable(sectors: nat)
    requires sectors < 65535 * 16 * 63
    ensures var (cth, hh, spt) := VhdExpand.Tracks(sectors); 0 < hh <= 16 && 0 < spt <= 63
  {
  }

  /** _format_stream up to the sizes: one partition at 1 MiB, the recommended cluster size, a format that fits. */
  method FormatLayout(size: nat, vhd: bool) returns (l: Layout)
    ensures l.Refused? <==> size < 64 * MIB || size > 0xFFFF_FFFF * SECTOR
    ensures l.Layout? ==> l.offset == MIB && 0 < l.size && l.offset + l.size <= size - 33 * SECTOR
    ensures l.Layout? ==> l.format.cluster == Recommended(l.size) && Sized(DefaultVolume(l.size), l.format)
    ensures InNumbers(size, l)
  {
    hide InNumbers, Sizing, G.EndsWell, G.Addressable, G.ReadsBack, VhdExpand.Tracks, Recommended, FatBytes;
    if size < 64 * MIB || size > 0xFFFF_FFFF * SECTOR {
      NoneInNumbers(size);
      return Refused;
    }
    var mbr := new G.Mbr(0, 0);
    if vhd {
      VhdAddressable(size);
      var (cth, hh, spt) := VhdExpand.Tracks(Min(size / SECTOR, 65535 * 16 * 255));
      mbr := new G.Mbr(hh, spt);
    } else {
      var g := G.GetGeometry(size / SECTOR);
      SpansAddressable(g, size / SECTOR, size - MIB - 33 * SECTOR);
      mbr := new G.Mbr(g.h, g.s);
    }
    var e := mbr.SetPart(MIB, size - MIB - 33 * SECTOR);
    var psize := e.total * SECTOR;
    RecommendedAllowed(psize);
    RecommendedPositive(psize);
    var ok, f, _ := Fit(DefaultVolume(psize), Recommended(psize));
    l := Layout(e.first * SECTOR, psize, f, e);
    assert Addressed(e) by {
      assert G.ReadsBack(e, mbr.heads, mbr.track);
    }
    LaidOut(size, l);
  }

  /** From 64 MiB to 4294967295 sectors: at 1 MiB, in front of 33 sectors that stay free and at most two cylinders;
      clusters of 4 KiB up to 256 MiB, of 32 up to 32 GiB, else of 128, behind 64 KiB of boot region and one FAT. */
  ghost predicate InNumbers(size: nat, l: Layout) {
    if size < 67108864 || size > 2199023255040 then l.Refused?
    else
      && l.Layout? && l.entry.first == 2048 && 512 * l.entry.total == l.size && Addressed(l.entry)
      && l.offset == 1048576 && size - 17516544 < l.size <= size - 16896 - l.offset
      && l.format.cluster ==
        (if l.size <= 268435456 then 4096 else if l.size <= 34359738368 then 32768 else 131072)
      && Sizing(Volume(l.size, 65536, 1, 0), l.format.cluster, l.format.clusters, l.format.fatSize, l.format.required)
  }

  /** The addresses of the entry lead back to its sectors in some geometry. */
  ghost predicate Addressed(e: G.Entry) {
    exists h: nat, s: nat :: G.Usable(h, s) && G.ReadsBack(e, h, s)
  }

  lemma NoneInNumbers(size: nat)
    requires size < 64 * MIB || size > 0xFFFF_FFFF * SECTOR
    ensures InNumbers(size, Refused)
  {
  }

  lemma LaidOut(size: nat, l: Layout)
    requires 64 * MIB <= size <= 0xFFFF_FFFF * SECTOR && l.Layout? && l.format.cluster == Recommended(l.size)
    requires l.offset == MIB && l.offset + l.size <= size - 33 * SECTOR && l.format.cluster > 0
    requires l.size > size - MIB - 33 * SECTOR - 2 * 255 * 63 * 512 - 512
    requires l.entry.first * SECTOR == MIB && l.entry.total * SECTOR == l.size && Addressed(l.entry)
    requires Sizing(DefaultVolume(l.size), l.format.cluster, l.format.clusters, l.format.fatSize, l.format.required)
    ensures InNumbers(size, l)
  {
    hide Sizing, Addressed;
  }

  lemma SpansAddressable(g: G.Chs, sectors: nat, size: nat)
    requires G.Spans(g, sectors)
    ensures G.Addressable(g.h, g.s, size)
  {
    Mono(g.h, 255, g.s);
  }

  lemma RecommendedPositive(size: nat)
    ensures Recommended(size) > 0
  {
  }
}
