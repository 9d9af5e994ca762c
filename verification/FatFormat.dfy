/** Sizing a FAT volume: the cluster count that fits, and the boot record that gives it back. */
module FatFormat {
  import opened Bytes
  import opened FatDriver

  const SECTOR: nat := 512

  /** What the formatter is asked for; root entries and reserved sectors have defaults. */
  datatype Request = Request(size: nat, copies: nat, ff0Reserved: bool, lowForbidden: bool, highForbidden: bool,
                             rootEntries: Setting, reservedSectors: Setting) {
    function Root(bits: nat): nat {
      if rootEntries.Given? then rootEntries.value else if bits == 12 then 224 else if bits == 16 then 512 else 0
    }

    function Reserved(bits: nat): nat {
      if bits == 32 && (reservedSectors.Default? || reservedSectors.value == 0) then 9 * SECTOR
      else if reservedSectors.Given? then reservedSectors.value * SECTOR
      else SECTOR
    }

    /** Everything outside FATs and clusters. */
    function Front(bits: nat): nat { Reserved(bits) + Root(bits) * 32 }

    /** Cluster values past the data: 11, or 18 on floppies and on request. */
    function SpecialClusters(): nat { if ff0Reserved || size / SECTOR < 5761 then 18 else 11 }

    function Required(bits: nat, cluster: nat, n: nat): nat {
      cluster * n + copies * FatSize(bits, n) + Front(bits)
    }

    /** The first estimate of the cluster count: everything but the front. */
    function Estimate(bits: nat, cluster: nat): nat
      requires cluster > 0 && Front(bits) <= size
    {
      (size - Front(bits)) / cluster
    }

    /** Counts a slot width is not used for. */
    predicate Excluded(bits: nat, n: int) {
      || n > Power(bits) - SpecialClusters()
      || (bits == 16 && n < 4096 - 11)
      || (bits == 32 && (n > Power(28) - SpecialClusters() || (lowForbidden && n < 65526) || (highForbidden &&
          n > 4177917)))
    }

    /** n is the largest positive count not above the estimate that fits. */
    ghost predicate Largest(bits: nat, cluster: nat, n: nat)
      requires cluster > 0 && Front(bits) <= size
    {
      && 0 < n <= Estimate(bits, cluster) && Required(bits, cluster, n) <= size
      && NoneFits(bits, cluster, n, Estimate(bits, cluster))
    }

    /** No count above lo and up to hi fits. */
    ghost predicate NoneFits(bits: nat, cluster: nat, lo: nat, hi: nat) {
      forall m: nat {:trigger Required(bits, cluster, m)} :: lo < m <= hi ==> Required(bits, cluster, m) > size
    }
  }

  datatype Setting = Default | Given(value: nat)

  function Power(n: nat): nat { if n == 0 then 1 else 2 * Power(n - 1) }

  /** Bytes of one FAT copy, as the formatter counts them: a half byte is dropped. */
  function FatSize(bits: nat, n: nat): nat { (bits * (n + 2) / 8 + SECTOR - 1) / SECTOR * SECTOR }

  /** A possible format. */
  datatype Format = Format(required: nat, reserved: nat, cluster: nat, clusters: nat, fatSize: nat, rootEntries: nat)

  ghost predicate Describes(f: Format, req: Request, bits: nat, cluster: nat)
    requires cluster > 0 && req.Front(bits) <= req.size
  {
    && req.Largest(bits, cluster, f.clusters) && !req.Excluded(bits, req.Estimate(bits, cluster))
    && f == Format(req.Required(bits, cluster, f.clusters), req.Reserved(bits), cluster, f.clusters, FatSize(bits,
        f.clusters), req.Root(bits))
  }

  /** The loop for one slot width and cluster size: from the estimate down to the first count that fits. */
  method Fit(req: Request, bits: nat, cluster: nat) returns (ok: bool, f: Format)
    requires cluster > 0 && req.Front(bits) <= req.size
    ensures ok ==> Describes(f, req, bits, cluster)
    ensures !ok ==> req.Excluded(bits, req.Estimate(bits, cluster)) || forall n: nat :: !req.Largest(bits, cluster, n)
  {
    hide Request.Required, Request.Estimate, Request.Excluded, FatSize;
    f := Format(0, 0, 0, 0, 0, 0);
    var clusters: nat := req.Estimate(bits, cluster);
    if req.Excluded(bits, clusters) {
      return false, f;
    }
    var fatSize, required;
    while true
      invariant clusters <= req.Estimate(bits, cluster)
      invariant req.NoneFits(bits, cluster, clusters, req.Estimate(bits, cluster))
      decreases clusters
    {
      fatSize := FatSize(bits, clusters);
      required := req.Required(bits, cluster, clusters);
      if required <= req.size || clusters == 0 {
        break;
      }
      clusters := clusters - 1;
    }
    if clusters == 0 {
      return false, f;
    }
    f := Format(required, req.Reserved(bits), cluster, clusters, fatSize, req.Root(bits));
    ok := true;
  }

  /** The same tests and the same loop when reserved area and root alone exceed the volume: the estimate is negative.
      FAT16, and FAT32 where few clusters are forbidden, are skipped; else the loop settles on a negative count, which
      is not zero and so accepted. */
  method FitWithoutRoom(req: Request, bits: nat, cluster: nat) returns (r: Option<int>)
    requires cluster > 0 && (bits == 12 || bits == 16 || bits == 32) && req.Front(bits) > req.size
    ensures r.Some? <==> bits == 12 || (bits == 32 && !req.lowForbidden)
    ensures r.Some? ==> r.value < 0 && (req.size - req.Front(bits)) / cluster - 1 <= r.value
    ensures r.Some? ==> cluster * r.value + req.Front(bits) <= req.size
  {
    var clusters: int := (req.size - req.Front(bits)) / cluster;
    BelowPowers(req, bits, clusters);
    if req.Excluded(bits, clusters) {
      return None;
    }
    ghost var estimate := clusters;
    while true
      invariant estimate - 1 <= clusters <= estimate < 0 && (clusters < estimate ==> estimate == -1)
      invariant cluster * clusters + req.Front(bits) <= req.size
      decreases clusters - estimate + 1
    {
      var fatSize := (bits * (clusters + 2) / 8 + SECTOR - 1) / SECTOR * SECTOR;
      var required := cluster * clusters + req.copies * fatSize + req.Front(bits);
      NoFat(bits, clusters, req.copies, fatSize);
      if required <= req.size || clusters == 0 {
        break;
      }
      assert cluster * (clusters - 1) == cluster * clusters - cluster;
      clusters := clusters - 1;
    }
    r := if clusters == 0 then None else Some(clusters);
  }

  /** A negative count is never too large. */
  lemma BelowPowers(req: Request, bits: nat, n: int)
    requires n < 0 && (bits == 12 || bits == 16 || bits == 32)
    ensures req.Excluded(bits, n) <==> bits == 16 || (bits == 32 && req.lowForbidden)
  {
    assert Power(5) == 32;
    PowerGrows(bits, 5);
    PowerGrows(28, 5);
  }

  lemma {:induction false} PowerGrows(n: nat, m: nat)
    requires m <= n
    ensures Power(n) >= Power(m) > 0
  {
    if m < n {
      PowerGrows(n - 1, m);
    } else if n > 0 {
      PowerGrows(n - 1, n - 1);
    }
  }

  lemma {:induction false} PowerSum(a: nat, b: nat)
    ensures Power(a + b) == Power(a) * Power(b)
  {
    if a > 0 {
      PowerSum(a - 1, b);
      assert Power(a + b) == 2 * Power(a - 1 + b);
    }
  }

  /** 320 sectors of which 400 are to be reserved: FAT12 is tried, and not skipped. */
  lemma WithoutRoomReached() returns (req: Request)
    ensures req.size == 320 * SECTOR && WidthsFor(req.size, 0, false) == Try([12]) && req.Front(12) > req.size
    ensures !req.Excluded(12, (req.size - req.Front(12)) / 512) && (req.size - req.Front(12)) / 512 == -94
  {
    req := Request(320 * SECTOR, 2, false, false, false, Default, Given(400));
    BelowPowers(req, 12, -94);
  }

  /** Two clusters short of none, the FAT takes no room. */
  lemma NoFat(bits: nat, n: int, copies: nat, fatSize: int)
    requires fatSize == (bits * (n + 2) / 8 + SECTOR - 1) / SECTOR * SECTOR
    ensures n <= -2 ==> copies * fatSize <= 0
  {
    if n <= -2 {
      assert bits * (n + 2) <= 0;
      assert fatSize <= 0;
      assert copies * fatSize <= 0;
    }
  }

  // ---- the boot record ----

  /** The fields of a FAT12/16 or FAT32 boot record that place its areas. */
  datatype Boot = Boot(bits: nat, reservedSectors: nat, sectorsPerCluster: nat, copies: nat, maxRoot: nat,
                       wTotalSectors: nat, dwTotalSectors: nat, sectorsPerFat: nat) {
    function Cluster(): nat { SECTOR * sectorsPerCluster }

    function Fat(k: nat): nat { reservedSectors * SECTOR + k * sectorsPerFat * SECTOR }

    /** The fixed root directory of FAT12/16; a FAT32 record has none. */
    function RootOffs(): nat { reservedSectors * SECTOR + copies * sectorsPerFat * SECTOR }

    function DataOffs(): nat { if bits == 32 then RootOffs() else RootOffs() + maxRoot * 32 }

    function Total(): nat { if bits == 32 || dwTotalSectors != 0 then dwTotalSectors else wTotalSectors }

    function Clusters(): int
      requires sectorsPerCluster > 0
    {
      (Total() - DataOffs() / SECTOR) / sectorsPerCluster
    }

    function ClusterOffset(c: nat): int { DataOffs() + (c - 2) * Cluster() }

    /** Every field fits the bytes the record has for it; else packing raises. */
    predicate Packs() {
      && sectorsPerCluster < 0x100 && copies < 0x100 && reservedSectors < 0x1_0000 && maxRoot < 0x1_0000
      && wTotalSectors < 0x1_0000 && dwTotalSectors < 0x1_0000_0000
      && sectorsPerFat < if bits == 32 then 0x1_0000_0000 else 0x1_0000
    }
  }

  /** The record fat_mkfs fills for a format. */
  function BootFor(f: Format, bits: nat, copies: nat, sectors: nat): Boot {
    Boot(bits, f.reserved / SECTOR, f.cluster / SECTOR, copies, f.rootEntries,
         if sectors < 65536 then f.required / SECTOR else 0, if sectors < 65536 then 0 else
             f.required / SECTOR, f.fatSize / SECTOR)
  }

  /** Formats the record can hold: cluster and root in whole sectors, at least 65536 sectors for 16 and 32 bits. */
  ghost predicate Formattable(req: Request, bits: nat, cluster: nat) {
    && (bits == 12 || bits == 16 || bits == 32) && req.Front(bits) <= req.size
    && cluster > 0 && cluster % SECTOR == 0 && req.Root(bits) * 32 % SECTOR == 0
    && (bits == 12 || req.size / SECTOR >= 65536)
  }

  lemma WholeFat(bits: nat, n: nat)
    ensures FatSize(bits, n) % SECTOR == 0 && FatSize(bits, n) / SECTOR * SECTOR == FatSize(bits, n)
  {
    Multiple((bits * (n + 2) / 8 + SECTOR - 1) / SECTOR);
  }

  lemma Multiple(q: nat)
    ensures q * SECTOR % SECTOR == 0 && q * SECTOR / SECTOR == q
  {
  }

  lemma Scale(a: nat, b: nat)
    ensures a * (b * SECTOR) == a * b * SECTOR
  {
  }

  /** Whole sectors add up to whole sectors. */
  lemma RequiredSectors(req: Request, bits: nat, spc: nat, n: nat)
    requires req.Root(bits) * 32 % SECTOR == 0
    ensures req.Required(bits, spc * SECTOR, n) ==
      (spc * n + req.copies * (FatSize(bits,
          n) / SECTOR) + req.Reserved(bits) / SECTOR + req.Root(bits) * 32 / SECTOR) * SECTOR
  {
    WholeFat(bits, n);
    var q := FatSize(bits, n) / SECTOR;
    Scale(req.copies, q);
    Scale(n, spc);
    assert req.Reserved(bits) == req.Reserved(bits) / SECTOR * SECTOR by {
      ReservedSectors(req, bits);
    }
    var root := req.Root(bits) * 32;
    assert root == root / SECTOR * SECTOR;
    assert spc * SECTOR * n == n * (spc * SECTOR) == spc * n * SECTOR;
    hide FatSize, Request.Reserved, Request.Root;
  }

  lemma ReservedSectors(req: Request, bits: nat)
    ensures req.Reserved(bits) % SECTOR == 0
  {
    if req.reservedSectors.Given? {
      Multiple(req.reservedSectors.value);
    }
  }

  lemma QuotientPlus(b: nat, q: nat, r: nat)
    requires b > 0
    ensures (b * q + r) / b == q + r / b
  {
    var d := r / b;
    assert b * (q + d) == b * q + b * d;
    var x := (b * q + r) / b;
    if x < q + d {
      Mono(x + 1, q + d, b);
    } else if x > q + d {
      Mono(q + d + 1, x, b);
    }
  }

  /** The areas of a formatted volume, from the record alone: they follow one another without a gap. */
  lemma BootAreas(req: Request, bits: nat, cluster: nat, f: Format, b: Boot)
    requires Formattable(req, bits, cluster) && Describes(f, req, bits, cluster) &&
        b == BootFor(f, bits, req.copies, req.size / SECTOR)
    ensures b.Cluster() == f.cluster && b.sectorsPerCluster > 0
    ensures forall k :: 0 <= k <= req.copies ==> b.Fat(k) == f.reserved + k * f.fatSize
    ensures b.RootOffs() == b.Fat(req.copies)
    ensures b.DataOffs() == f.reserved + req.copies * f.fatSize + (if bits == 32 then 0 else f.rootEntries * 32)
    ensures b.Total() * SECTOR == f.required
  {
    hide FatSize, Request.Largest, Request.Excluded;
    WholeFat(bits, f.clusters);
    ReservedSectors(req, bits);
    var spc, spf := cluster / SECTOR, f.fatSize / SECTOR;
    assert cluster == spc * SECTOR;
    RequiredSectors(req, bits, spc, f.clusters);
    hide Request.Required;
    forall k: nat ensures k * spf * SECTOR == k * f.fatSize {
      Scale(k, spf);
    }
    var t := spc * f.clusters + req.copies * spf + req.Reserved(bits) / SECTOR + req.Root(bits) * 32 / SECTOR;
    Multiple(t);
  }

  /** The record gives back the cluster count, unless a FAT32 record was given a root area of a cluster or more. */
  lemma BootClusters(req: Request, bits: nat, cluster: nat, f: Format, b: Boot)
    requires Formattable(req, bits, cluster) && Describes(f, req, bits, cluster) &&
        b == BootFor(f, bits, req.copies, req.size / SECTOR)
    ensures b.sectorsPerCluster > 0 && (b.Clusters() == f.clusters <==> bits != 32 || req.Root(bits) * 32 < cluster)
    ensures b.Clusters() >= f.clusters
  {
    hide FatSize, Request.Largest, Request.Excluded, Request.Required, Request.Root, Request.Reserved;
    BootAreas(req, bits, cluster, f, b);
    WholeFat(bits, f.clusters);
    ReservedSectors(req, bits);
    var spc, spf, root := cluster / SECTOR, f.fatSize / SECTOR, req.Root(bits) * 32 / SECTOR;
    assert cluster == spc * SECTOR;
    RequiredSectors(req, bits, spc, f.clusters);
    Scale(req.copies, spf);
    var before := req.Reserved(bits) / SECTOR + req.copies * spf;
    var spare := if bits == 32 then root else 0;
    assert b.DataOffs() == (before + if bits == 32 then 0 else root) * SECTOR;
    Multiple(before + if bits == 32 then 0 else root);
    Multiple(spc * f.clusters + req.copies * spf + req.Reserved(bits) / SECTOR + root);
    assert b.Total() - b.DataOffs() / SECTOR == spc * f.clusters + spare;
    QuotientPlus(spc, f.clusters, spare);
    SmallQuotient(spare, spc);
    assert root * SECTOR == req.Root(bits) * 32;
  }

  lemma SmallQuotient(r: nat, b: nat)
    requires b > 0
    ensures r / b == 0 <==> r < b
  {
    if r >= b {
      QuotientPlus(b, 1, r - b);
    }
  }

  /** Sixteen root entries on a FAT32 volume of 512 byte clusters: the record gives back one cluster too many. */
  lemma RootCounted() returns (req: Request, f: Format)
    ensures req.size == 66056 * SECTOR && req.rootEntries == Given(16) && Formattable(req, 32, 512)
    ensures Describes(f, req, 32, 512) && BootFor(f, 32, req.copies, req.size / SECTOR).Clusters() == f.clusters + 1
  {
    hide Power;
    req := Request(66056 * SECTOR, 1, false, false, false, Given(16), Default);
    f := Format(req.size, 9 * SECTOR, 512, 65534, 512 * SECTOR, 16);
    assert req.Estimate(32, 512) == 66046;
    assert FatSize(32, 65534) == 512 * SECTOR;
    assert req.Required(32, 512, 65534) == req.size;
    forall m: nat {:trigger req.Required(32, 512, m)} | 65534 < m <= 66046 ensures req.Required(32, 512, m) > req.size {
      assert FatSize(32, m) >= 512 * SECTOR;
    }
    LargePowers();
  }

  lemma LargePowers()
    ensures Power(28) >= 0x10_0000 && Power(32) >= 0x10_0000
  {
    assert Power(5) == 32;
    PowerSum(5, 5);
    PowerSum(10, 10);
    PowerGrows(28, 20);
    PowerGrows(32, 20);
  }

  /** Reserved area, FAT copies, root and clusters are disjoint and inside the volume. */
  lemma BootInside(req: Request, bits: nat, cluster: nat, f: Format, b: Boot, k: nat, c: nat)
    requires Formattable(req, bits, cluster) && Describes(f, req, bits, cluster) &&
        b == BootFor(f, bits, req.copies, req.size / SECTOR)
    requires k < req.copies && 2 <= c < f.clusters + 2
    ensures f.reserved <= b.Fat(0) && b.Fat(k) + f.fatSize <= b.Fat(k + 1) <= b.RootOffs() <= b.DataOffs()
    ensures b.DataOffs() <= b.ClusterOffset(c) &&
        b.ClusterOffset(c) + cluster <= b.ClusterOffset(f.clusters + 2) <= f.required <= req.size
  {
    hide FatSize, Request.Excluded, Request.Reserved, Request.Root, Boot.Fat, Boot.RootOffs, Boot.DataOffs;
    hide Boot.Cluster, Request.NoneFits, BootFor;
    BootAreas(req, bits, cluster, f, b);
    Copies(f, req.copies, k);
    Data(b, f, c);
  }

  lemma Copies(f: Format, copies: nat, k: nat)
    requires k < copies
    ensures k * f.fatSize + f.fatSize == (k + 1) * f.fatSize <= copies * f.fatSize
  {
    Mono(k + 1, copies, f.fatSize);
  }

  lemma Data(b: Boot, f: Format, c: nat)
    requires 2 <= c < f.clusters + 2 && b.Cluster() == f.cluster
    ensures b.DataOffs() <= b.ClusterOffset(c)
    ensures b.ClusterOffset(c) + f.cluster <= b.ClusterOffset(f.clusters + 2) == b.DataOffs() + f.cluster * f.clusters
  {
    hide Boot.DataOffs, Boot.Cluster;
    Mono(c - 1, f.clusters, f.cluster);
    assert (c - 1) * f.cluster == (c - 2) * f.cluster + f.cluster;
  }

  /** A FAT12 table of an odd number of slots that just overflows a sector by a half byte. */
  predicate HalfByteLost(bits: nat, n: nat) { bits == 12 && 3 * (n + 2) % 1024 == 1 }

  lemma Twelve(n: nat)
    ensures (12 * n / 8 + 511) / 512 == ((12 * n + 7) / 8 + 511) / 512 <==> 3 * n % 1024 != 1
    ensures 8 * ((12 * n / 8 + 511) / 512 * 512) >= 12 * n <==> 3 * n % 1024 != 1
  {
    var q, r := 3 * n / 1024, 3 * n % 1024;
    assert 3 * n == 1024 * q + r;
    assert 12 * n / 8 == 512 * q + r / 2;
    assert (12 * n + 7) / 8 == 512 * q + (r + 1) / 2;
    InSectors(q, r / 2);
    InSectors(q, (r + 1) / 2);
  }

  /** Sectors for q whole ones and x bytes of another. */
  lemma InSectors(q: nat, x: nat)
    requires x <= 512
    ensures (512 * q + x + 511) / 512 == q + if x == 0 then 0 else 1
  {
  }

  /** The driver looks for the second copy where the formatter put it, and every slot has its room, except in that
      case. */
  lemma SecondCopy(req: Request, bits: nat, cluster: nat, f: Format, b: Boot)
    requires Formattable(req, bits, cluster) && Describes(f, req, bits, cluster) &&
        b == BootFor(f, bits, req.copies, req.size / SECTOR)
    requires req.copies > 0
    ensures Opened(b.Fat(0), f.clusters, bits, SECTOR).offset2 == b.Fat(1) <==> !HalfByteLost(bits, f.clusters)
    ensures 8 * f.fatSize >= bits * (f.clusters + 2) <==> !HalfByteLost(bits, f.clusters)
  {
    hide Request.Largest, Request.Excluded, Request.Required, Boot.DataOffs, FatSize, BootFor, Opened;
    BootAreas(req, bits, cluster, f, b);
    assert b.Fat(0) == f.reserved + 0 * f.fatSize && b.Fat(1) == f.reserved + 1 * f.fatSize;
    TableSizes(bits, f.clusters, f.reserved);
  }

  lemma TableSizes(bits: nat, n: nat, offset: nat)
    requires bits == 12 || bits == 16 || bits == 32
    ensures Opened(offset, n, bits, SECTOR).offset2 == offset + FatSize(bits, n) <==> !HalfByteLost(bits, n)
    ensures 8 * FatSize(bits, n) >= bits * (n + 2) <==> !HalfByteLost(bits, n)
  {
    if bits == 12 {
      Twelve(n + 2);
    } else {
      Whole(bits / 8, n + 2);
    }
  }

  lemma Whole(w: nat, n: nat)
    requires w == 2 || w == 4
    ensures 8 * w * n / 8 == w * n && (8 * w * n + 7) / 8 == w * n
    ensures 8 * ((w * n + 511) / 512 * 512) >= 8 * w * n
  {
  }

  /** A disk of 700 sectors with 512 byte clusters loses the half byte. */
  lemma HalfByteReached() returns (req: Request)
    ensures req.size == 700 * SECTOR && req.Front(12) <= req.size && req.Largest(12, 512, 681) && HalfByteLost(12, 681)
  {
    req := Request(700 * SECTOR, 2, false, false, false, Default, Default);
    assert req.Estimate(12, 512) == 685;
    assert req.Required(12, 512, 681) == 700 * SECTOR;
    assert forall m: nat {:trigger req.Required(12, 512, m)} :: 681 < m <= 685 ==> m == 682 || m == 683 || m == 684 || m == 685;
    assert req.Required(12, 512, 682) > req.size && req.Required(12, 512, 683) > req.size;
    assert req.Required(12, 512, 684) > req.size && req.Required(12, 512, 685) > req.size;
  }

  // ---- all slot widths and cluster sizes ----

  /** The slot widths to try, or the error code: small disks take FAT12 only. */
  datatype Widths = Refused(code: int) | Try(bits: seq<nat>)

  function WidthsFor(size: nat, fatBits: nat, fat12Disabled: bool): Widths {
    if fatBits != 0 && fatBits != 12 && fatBits != 16 && fatBits != 32 then Refused(-2)
    else if size <= 0x200_0000 && fatBits != 0 && fatBits != 12 then Refused(-4)
    else if size / SECTOR < 320 || size / SECTOR > 0xFFFF_FFFF then Refused(-3)
    else if size <= 0x200_0000 then Try([12])
    else if fatBits != 0 then Try([fatBits])
    else if fat12Disabled then Try([16, 32])
    else Try([12, 16, 32])
  }

  /** Whatever widths are tried, their records have the sector count where the driver reads it. */
  lemma WidthsFormattable(req: Request, fatBits: nat, fat12Disabled: bool, bits: nat, cluster: nat)
    requires var w := WidthsFor(req.size, fatBits, fat12Disabled); w.Try? && bits in w.bits
    requires req.rootEntries.Default? && req.reservedSectors.Default? && cluster > 0 && cluster % SECTOR == 0
    ensures Formattable(req, bits, cluster)
  {
  }

  /** The record of a possible format can be packed exactly if copies, reserved sectors and root entries, as asked for or
      by default, fit their fields. */
  lemma RecordPacks(req: Request, bits: nat, i: nat, f: Format, b: Boot)
    requires (bits == 12 || bits == 16 || bits == 32) && req.Front(bits) <= req.size && req.size / SECTOR <= 0xFFFF_FFFF
    requires 9 <= i < 17 && Power(i) > 0 && Describes(f, req, bits, Power(i))
    requires b == BootFor(f, bits, req.copies, req.size / SECTOR)
    ensures b.Packs() <==> req.copies < 0x100 && req.Reserved(bits) / SECTOR < 0x1_0000 && req.Root(bits) < 0x1_0000
  {
    ClusterSizes(i);
    FatSectors(req, bits, f.clusters, req.Estimate(bits, Power(i)));
    NoMore(f.required, req.size);
    hide FatSize, Request.Required, Request.Largest, Request.Estimate, Request.Reserved, Request.Root, Power;
  }

  lemma NoMore(a: nat, b: nat)
    requires a <= b
    ensures a / SECTOR <= b / SECTOR
  {
  }

  lemma ClusterSizes(i: nat)
    requires i < 17
    ensures Power(i) <= 0x1_0000
  {
    PowerGrows(16, i);
    SmallPowers();
  }

  lemma SmallPowers()
    ensures Power(12) == 0x1000 && Power(16) == 0x1_0000 && Power(28) == 0x1000_0000
  {
    assert Power(4) == 16;
    PowerSum(4, 4);
    PowerSum(8, 4);
    PowerSum(8, 8);
    PowerSum(16, 12);
  }

  /** A count not excluded needs no more FAT sectors than the field holds. */
  lemma FatSectors(req: Request, bits: nat, n: nat, estimate: nat)
    requires (bits == 12 || bits == 16 || bits == 32) && n <= estimate && !req.Excluded(bits, estimate)
    ensures FatSize(bits, n) / SECTOR < if bits == 32 then 0x1_0000_0000 else 0x1_0000
  {
    SmallPowers();
    hide Power;
  }

  /** 200000 sectors, 70000 of them reserved: a format is possible, and its record cannot be packed. */
  lemma UnpackedReached() returns (req: Request, f: Format)
    ensures WidthsFor(req.size, 0, false) == Try([12, 16, 32]) && req.Front(12) <= req.size && req.Reserved(12) == 70000 * SECTOR
    ensures Power(16) > 0 && Describes(f, req, 12, Power(16))
    ensures !BootFor(f, 12, req.copies, req.size / SECTOR).Packs()
  {
    SmallPowers();
    hide Power;
    req := Request(200000 * SECTOR, 2, false, false, false, Default, Given(70000));
    f := Format(req.Required(12, 0x1_0000, 1015), 70000 * SECTOR, 0x1_0000, 1015, FatSize(12, 1015), 224);
    assert req.Estimate(12, 0x1_0000) == 1015;
  }

  /** Some positive count fits and the slot width is used for it. */
  ghost predicate Possible(req: Request, bits: nat, cluster: nat) {
    cluster > 0 && req.Front(bits) <= req.size && !req.Excluded(bits, req.Estimate(bits, cluster))
    && exists n: nat :: req.Largest(bits, cluster, n)
  }

  ghost predicate Candidate(cluster: nat, top: nat) {
    exists i: nat {:trigger Power(i)} :: 9 <= i < top && cluster == Power(i)
  }

  /** m holds exactly the possible formats among the cluster sizes below 2**top. */
  ghost predicate Lists(m: map<nat, Format>, req: Request, bits: nat, top: nat)
    requires req.Front(bits) <= req.size
  {
    forall c: nat {:trigger c in m} ::
      (c in m <==> Candidate(c, top) && Possible(req, bits, c)) && (c in m ==> c > 0 && Describes(m[c], req, bits, c))
  }

  lemma {:induction false} PowerPositive(i: nat)
    ensures Power(i) > 0
    ensures i >= 9 ==> Power(i) % SECTOR == 0
  {
    if i > 0 {
      PowerPositive(i - 1);
    }
    if i >= 9 {
      assert Power(5) == 32;
      PowerSum(5, 4);
      PowerSum(i - 9, 9);
      hide Power;
      Multiple(Power(i - 9));
    }
  }

  /** The cluster sizes of one slot width. */
  method SizeWidth(req: Request, bits: nat, top: nat) returns (allowed: map<nat, Format>)
    requires req.Front(bits) <= req.size && top >= 9
    ensures Lists(allowed, req, bits, top)
  {
    hide Request.Required, Request.Estimate, Request.Excluded, Request.Largest, FatSize, Request.Front;
    allowed := map[];
    var i := 9;
    while i < top
      invariant 9 <= i <= top && Lists(allowed, req, bits, i)
    {
      PowerPositive(i);
      var cluster := Power(i);
      var ok, f := Fit(req, bits, cluster);
      ListsMore(allowed, req, bits, i, ok, f);
      if ok {
        allowed := allowed[cluster := f];
      }
      i := i + 1;
    }
  }

  lemma ListsMore(m: map<nat, Format>, req: Request, bits: nat, i: nat, ok: bool, f: Format)
    requires req.Front(bits) <= req.size && i >= 9 && Lists(m, req, bits, i) && Power(i) > 0
    requires ok ==> Describes(f, req, bits, Power(i))
    requires !ok ==> req.Excluded(bits, req.Estimate(bits, Power(i))) || forall n: nat :: !req.Largest(bits, Power(i), n)
    ensures Lists(if ok then m[Power(i) := f] else m, req, bits, i + 1)
  {
    hide Request.Required, Request.Estimate, Request.Excluded, Request.Largest, FatSize, Request.Front, Power;
    var m' := if ok then m[Power(i) := f] else m;
    assert Possible(req, bits, Power(i)) <==> ok;
    forall c: nat ensures Candidate(c, i + 1) <==> Candidate(c, i) || c == Power(i) {
    }
    hide Candidate, Possible, Describes;
  }

  /** All formats of all widths, as the formatter tabulates them. */
  method SizeFat(req: Request, widths: seq<nat>, top: nat) returns (fs: map<nat, map<nat, Format>>)
    requires top >= 9 && forall bits :: bits in widths ==> req.Front(bits) <= req.size
    ensures forall bits {:trigger bits in fs} :: bits in fs ==> bits in widths && fs[bits] != map[] && Lists(fs[bits], req, bits, top)
    ensures forall bits, c {:trigger Possible(req, bits, c)} :: bits in widths && Candidate(c, top) && Possible(req, bits, c) ==>
      bits in fs && c in fs[bits]
  {
    hide Possible, Candidate, Request.Front, Describes;
    fs := map[];
    var k := 0;
    while k < |widths|
      invariant k <= |widths|
      invariant forall bits {:trigger bits in fs} :: bits in fs ==> bits in widths && fs[bits] != map[] && Lists(fs[bits], req, bits, top)
      invariant forall bits, c {:trigger Possible(req, bits, c)} :: bits in widths[..k] && Candidate(c, top) && Possible(req, bits, c) ==>
        bits in fs && c in fs[bits]
    {
      var allowed := SizeWidth(req, widths[k], top);
      forall c: nat | Candidate(c, top) && Possible(req, widths[k], c) ensures c in allowed {
      }
      if allowed != map[] {
        fs := fs[widths[k] := allowed];
      }
      assert widths[..k + 1] == widths[..k] + [widths[k]];
      k := k + 1;
    }
    assert widths[..|widths|] == widths;
  }

  // ---- in numbers ----

  /** The counts a slot width is used for; marks: the 18 values from FF0 on are kept, else the 11 from FF7 on. */
  predicate Within(bits: nat, n: int, marks: bool, lowForbidden: bool, highForbidden: bool) {
    if bits == 12 then n <= if marks then 4078 else 4085
    else if bits == 16 then 4085 <= n <= if marks then 65518 else 65525
    else
      && n <= (if marks then 268435438 else 268435445)
      && (lowForbidden ==> 65526 <= n) && (highForbidden ==> n <= 4177917)
  }

  lemma ExcludedIs(req: Request, bits: nat, n: int)
    requires bits == 12 || bits == 16 || bits == 32
    ensures req.Excluded(bits, n) <==>
      !Within(bits, n, req.ff0Reserved || req.size < 5761 * 512, req.lowForbidden, req.highForbidden)
  {
    SmallPowers();
    PowerSum(28, 4);
    assert Power(4) == 16 && Power(32) == 16 * Power(28);
    hide Power;
  }

  /** What a listed format is, in numbers: the estimate of its width is within bounds, and it has as many clusters as
      fit beside the reserved sectors, the root entries and the copies of the table. */
  lemma InNumbers(req: Request, bits: nat, cluster: nat, f: Format, reserved: nat, root: nat, estimate: nat)
    requires bits == 12 || bits == 16 || bits == 32
    requires cluster > 0 && req.Front(bits) <= req.size && Describes(f, req, bits, cluster)
    requires reserved == if bits == 32 && (req.reservedSectors.Default? || req.reservedSectors.value == 0) then 4608
      else if req.reservedSectors.Default? then 512 else 512 * req.reservedSectors.value
    requires root == if req.rootEntries.Given? then req.rootEntries.value else if bits == 12 then 224 else
      if bits == 16 then 512 else 0
    requires reserved + 32 * root <= req.size && estimate == (req.size - reserved - 32 * root) / cluster
    ensures Within(bits, estimate, req.ff0Reserved || req.size < 5761 * 512, req.lowForbidden, req.highForbidden)
    ensures 0 < f.clusters <= estimate && f.cluster == cluster && f.reserved == reserved && f.rootEntries == root
    ensures f.fatSize == (bits * (f.clusters + 2) / 8 + 511) / 512 * 512
    ensures f.required == cluster * f.clusters + req.copies * f.fatSize + reserved + 32 * root <= req.size
    ensures NoMoreFit(req, bits, cluster, f.clusters, estimate, reserved + 32 * root)
  {
    hide NoMoreFit;
    ExcludedIs(req, bits, estimate);
    assert reserved == req.Reserved(bits) && root == req.Root(bits);
    hide Request.Excluded, Within, Power, Request.NoneFits;
    NoneFit(req, bits, cluster, f.clusters, estimate, reserved + 32 * root);
  }

  lemma NoneFit(req: Request, bits: nat, cluster: nat, lo: nat, hi: nat, before: nat)
    requires req.NoneFits(bits, cluster, lo, hi) && before == req.Front(bits)
    ensures NoMoreFit(req, bits, cluster, lo, hi, before)
  {
    hide Request.Front;
    forall n: nat {:trigger TooMany(req, bits, cluster, n, before)} | lo < n <= hi
      ensures TooMany(req, bits, cluster, n, before)
    {
      assert req.Required(bits, cluster, n) > req.size;
    }
  }

  /** n clusters, their tables and what comes before do not fit. */
  ghost predicate TooMany(req: Request, bits: nat, cluster: nat, n: nat, before: nat) {
    cluster * n + req.copies * ((bits * (n + 2) / 8 + 511) / 512 * 512) + before > req.size
  }

  ghost predicate NoMoreFit(req: Request, bits: nat, cluster: nat, lo: nat, hi: nat, before: nat) {
    forall n: nat {:trigger TooMany(req, bits, cluster, n, before)} :: lo < n <= hi ==>
      TooMany(req, bits, cluster, n, before)
  }

  /** The driver can number the clusters of every listed format: all numbers lie below the values it keeps. */
  lemma CountsFit(req: Request, bits: nat, cluster: nat, f: Format, b: Boot)
    requires Formattable(req, bits, cluster) && Describes(f, req, bits, cluster)
    requires b == BootFor(f, bits, req.copies, req.size / SECTOR)
    ensures Opened(b.Fat(0), f.clusters, bits, SECTOR).Valid()
  {
    ExcludedIs(req, bits, req.Estimate(bits, cluster));
    assert f.clusters <= req.Estimate(bits, cluster);
    hide Request.Excluded, Request.Required, FatSize, BootFor, Boot.Fat;
    var n, p := f.clusters, b.Fat(0);
    SectorsHold((n + 2) * bits + 7);
  }

  lemma SectorsHold(x: nat)
    ensures x / 8 <= CeilDiv(x / 8, SECTOR) * SECTOR
  {
  }

  /** A disk of 400 MiB: no 16-bit format with clusters of 4 KiB, no 12-bit one with clusters of 64 KiB. */
  lemma FourHundredMebibytes(req: Request)
    requires req == Request(400 * 0x10_0000, 2, false, false, false, Default, Default)
    ensures req.Estimate(16, 4096) == 102395 && !Possible(req, 16, 4096)
    ensures req.Estimate(12, 0x1_0000) == 6399 && !Possible(req, 12, 0x1_0000)
  {
    ExcludedIs(req, 16, 102395);
    ExcludedIs(req, 12, 6399);
    hide Request.Excluded;
  }

  /** The cluster sizes tried: 512 bytes to 64 KiB. */
  lemma CandidateIs(c: nat)
    ensures Candidate(c, 17) <==> c in {512, 1024, 2048, 4096, 8192, 16384, 32768, 65536}
  {
    Powers9();
    hide Power;
    if c in {512, 1024, 2048, 4096, 8192, 16384, 32768, 65536} {
      assert c == Power(9) || c == Power(10) || c == Power(11) || c == Power(12) || c == Power(13) || c == Power(14) ||
        c == Power(15) || c == Power(16);
    }
  }

  lemma Powers9()
    ensures Power(9) == 512 && Power(10) == 1024 && Power(11) == 2048 && Power(12) == 4096
    ensures Power(13) == 8192 && Power(14) == 16384 && Power(15) == 32768 && Power(16) == 65536
  {
    SmallPowers();
    assert Power(12) == 2 * Power(11) == 4 * Power(10);
    assert Power(10) == 2 * Power(9);
    assert Power(16) == 2 * Power(15) == 4 * Power(14);
    assert Power(14) == 2 * Power(13);
  }

  /** Without a width asked for: nothing below 320 sectors or past 4294967295 of them, FAT12 alone up to 32 MiB, then
      all three, or without FAT12 if that is disabled. */
  lemma WidthsIs(size: nat, fat12Disabled: bool)
    ensures WidthsFor(size, 0, fat12Disabled) ==
      if size < 163840 || size >= 2199023255552 then Refused(-3)
      else Try(if size <= 33554432 then [12] else if fat12Disabled then [16, 32] else [12, 16, 32])
  {
  }

  /** The fields of the record in numbers: sectors of 512 bytes, counted in two bytes up to 65535 of them. */
  lemma BootFields(req: Request, bits: nat, cluster: nat, f: Format, b: Boot)
    requires Formattable(req, bits, cluster) && Describes(f, req, bits, cluster)
    requires b == BootFor(f, bits, req.copies, req.size / SECTOR)
    ensures 512 * b.reservedSectors == f.reserved && 512 * b.sectorsPerCluster == f.cluster
    ensures 512 * b.sectorsPerFat == f.fatSize && b.copies == req.copies && b.maxRoot == f.rootEntries
    ensures if req.size < 33554432 then 512 * b.wTotalSectors == f.required && b.dwTotalSectors == 0
            else 512 * b.dwTotalSectors == f.required && b.wTotalSectors == 0
  {
    hide FatSize, Request.Largest, Request.Excluded;
    WholeFat(bits, f.clusters);
    ReservedSectors(req, bits);
    var spc := cluster / SECTOR;
    RequiredSectors(req, bits, spc, f.clusters);
    hide Request.Required, Request.Reserved, Request.Root;
    var before := req.Reserved(bits) / SECTOR + req.Root(bits) * 32 / SECTOR;
    Multiple(spc * f.clusters + req.copies * (f.fatSize / SECTOR) + before);
  }
}
