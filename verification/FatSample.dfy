/** Small tables in bytes, one for each width: cluster 2 leads to 3, the last of its chain; 4 is free. */
module FatSample {
  import opened Bytes
  import opened FlatDisk
  import opened FatTable
  import opened FatChains
  import opened FatBytes
  import opened FatDriver

  /** The sector of one copy. */
  function Sector(bits: nat): (s: seq<Byte>)
    ensures |s| == 512
  {
    if bits == 32 then
      [0xF8, 0xFF, 0xFF, 0x0F, 0xFF, 0xFF, 0xFF, 0x0F, 3, 0, 0, 0, 0xF8, 0xFF, 0xFF, 0x0F] + Zeros(496)
    else if bits == 16 then [0xF8, 0xFF, 0xFF, 0xFF, 3, 0, 0xFF, 0xFF] + Zeros(504)
    else [0xF8, 0xFF, 0xFF, 3, 0xF0, 0xFF] + Zeros(506)
  }

  function Volume(bits: nat): (d: seq<Byte>)
    ensures |d| == 1024
  {
    Sector(bits) + Sector(bits)
  }

  function Shape(bits: nat): Geometry { Geometry(bits, 0, 512, 3) }

  predicate IsWidth(bits: nat) { bits == 12 || bits == 16 || bits == 32 }

  /** The end mark of each width. */
  function Mark(bits: nat): nat { if bits == 32 then 0x0FFF_FFF8 else if bits == 16 then 0xFFFF else 0xFFF }

  /** Both copies lie in their sectors. */
  lemma Placed(bits: nat)
    requires IsWidth(bits)
    ensures Opened(0, 3, bits, 512) == Shape(bits) && Shape(bits).Fits(Volume(bits)) && Shape(bits).Last() == Mark(bits)
    ensures Shape(bits).Mirrored(Volume(bits))
  {
    hide Sector;
    var s := Sector(bits);
    assert forall k :: 0 <= k < 512 ==> Volume(bits)[k] == s[k] == Volume(bits)[k + 512];
  }

  lemma SlotIs(bits: nat, d: seq<Byte>, c: nat, v: nat)
    requires IsWidth(bits) && Shape(bits).Fits(d) && c < 5 && Holds(bits, d, 0, c, v)
    ensures Shape(bits).Table(d)[c] == v
  {
    EntryBytes(Shape(bits), d, c);
    HoldsOne(bits, d, 0, c, v, Shape(bits).Table(d)[c]);
  }

  lemma InSample(bits: nat)
    requires IsWidth(bits)
    ensures Holds(bits, Volume(bits), 0, 2, 3) && Holds(bits, Volume(bits), 0, 3, Mark(bits))
    ensures Holds(bits, Volume(bits), 0, 4, 0)
  {
  }

  /** What the bytes say. */
  lemma SampleTable(bits: nat)
    requires IsWidth(bits)
    ensures Shape(bits).Fits(Volume(bits)) && Shape(bits).Mirrored(Volume(bits)) && |Shape(bits).Table(Volume(bits))| == 5
    ensures Shape(bits).Table(Volume(bits))[2] == 3 && Shape(bits).Table(Volume(bits))[3] == Mark(bits)
    ensures Shape(bits).Table(Volume(bits))[4] == 0
  {
    hide Geometry.Fits, Geometry.Table, Geometry.Mirrored, Holds, Volume;
    Placed(bits);
    InSample(bits);
    SlotIs(bits, Volume(bits), 2, 3);
    SlotIs(bits, Volume(bits), 3, Mark(bits));
    SlotIs(bits, Volume(bits), 4, 0);
  }

  /** Clusters 2 and 3 are a chain, 4 is free, and the scan sees it. */
  lemma SampleChain(t: seq<nat>, bits: nat)
    requires IsWidth(bits) && |t| == 5 && t[2] == 3 && t[3] == Mark(bits) && t[4] == 0
    ensures IsChain(t, [2, 3], Mark(bits)) && EndOf(t, [2, 3], Mark(bits)) == Mark(bits) && ZeroSet(t) == {4}
  {
    var cs: seq<nat> := [2, 3];
    assert IsCluster(t, cs[0]) && IsCluster(t, cs[1]) && Linked(t, cs);
  }

  /** The driver reads the entry and follows the chain. */
  method ChainRead(bits: nat) returns (v: nat, n: nat, last: nat)
    requires IsWidth(bits)
    ensures v == 3 && n == 2 && last == 3
  {
    hide Geometry.Fits, Geometry.Table, Geometry.Mirrored, Holds, Volume, Geometry.Last, IsChain, EndOf;
    SampleTable(bits);
    Placed(bits);
    var stream := new DiskStream(Volume(bits));
    var fat := new Fat(stream, 0, 3, bits, 512);
    SampleChain(fat.T(), bits);
    v := fat.Get(2);
    n, last := fat.Count(2, [2, 3], Mark(bits));
  }

  lemma SampleScanned(bits: nat)
    requires IsWidth(bits) && Shape(bits).Fits(Volume(bits))
    ensures Shape(bits).ScanSeesTruth(Volume(bits))
  {
    if bits == 12 {
      var g, d := Shape(bits), Volume(bits);
      forall c | 2 <= c < 5 ensures g.NibblesAgree(d, c) {
        NibblesSeen(c);
      }
    }
  }

  lemma NibblesSeen(c: nat)
    requires 2 <= c < 5 && Shape(12).Fits(Volume(12))
    ensures Shape(12).NibblesAgree(Volume(12), c)
  {
    var d := Volume(12);
    assert d[3] == 3 && d[5] == 0xFF && d[6] == 0 && d[7] == 0;
    hide Volume;
  }

  /** The bytes of slots 2 to 4 in the copy at q, once 4 is appended: 3, 4, and the end mark. */
  predicate Linked3(bits: nat, d: seq<Byte>, q: nat) {
    if bits == 32 then q + 20 <= |d| && d[q + 8..q + 20] == [3, 0, 0, 0, 4, 0, 0, 0, 0xF8, 0xFF, 0xFF, 0x0F]
    else if bits == 16 then q + 10 <= |d| && d[q + 4..q + 10] == [3, 0, 4, 0, 0xFF, 0xFF]
    else q + 8 <= |d| && d[q + 3..q + 7] == [3, 0x40, 0, 0xFF] && d[q + 7] % 16 == 0xF
  }

  lemma ThreeSlots(bits: nat, d: seq<Byte>, q: nat)
    requires IsWidth(bits) && Holds(bits, d, q, 2, 3) && Holds(bits, d, q, 3, 4) && Holds(bits, d, q, 4, Mark(bits))
    ensures Linked3(bits, d, q)
  {
    if bits == 12 {
      assert d[q + 4] as int == 16 * (d[q + 4] as int / 16) + d[q + 4] as int % 16;
    }
  }

  lemma OneRun(t: seq<nat>, bits: nat)
    requires IsWidth(bits) && |t| == 5 && IsChain(t, [2, 3], Mark(bits))
    ensures Growable(t, [Run(2, 2)], Mark(bits)) && Behind([Run(2, 2)], 5) == [2, 3]
  {
    var runs := [Run(2, 2)];
    assert Flatten(runs[..0]) == [];
    assert Flatten(runs) == [2, 3];
  }

  /** Only 4 was free, so it is 4 that is appended. */
  lemma OneMore(t: seq<nat>, t': seq<nat>, added: seq<nat>, bits: nat)
    requires IsWidth(bits) && |t| == 5 && t[2] == 3 && ZeroSet(t) == {4} && |added| == 1
    requires Grown(t, t', [2, 3], added, Mark(bits))
    ensures |t'| == 5 && t'[2] == 3 && t'[3] == 4 && t'[4] == Mark(bits)
  {
    assert IsCluster(t, added[0]) && added[0] in ZeroSet(t);
  }

  lemma FourFree(fat: Fat)
    requires fat.Valid() && ZeroSet(fat.T()) == {4} && fat.freeClusters == |fat.Free()|
    ensures fat.freeClusters == 1
  {
  }

  lemma SampleBytes(bits: nat, d: seq<Byte>)
    requires IsWidth(bits) && Shape(bits).Fits(d) && Shape(bits).Mirrored(d)
    requires var t := Shape(bits).Table(d); t[2] == 3 && t[3] == 4 && t[4] == Mark(bits)
    ensures Linked3(bits, d, 0) && Linked3(bits, d, 512)
  {
    hide Holds, Linked3, Geometry.Table, Geometry.Fits, Geometry.Mirrored;
    var g := Shape(bits);
    EntryBytes(g, d, 2);
    EntryBytes(g, d, 3);
    EntryBytes(g, d, 4);
    CopyBytes(g, d, 2);
    CopyBytes(g, d, 3);
    CopyBytes(g, d, 4);
    ThreeSlots(bits, d, 0);
    ThreeSlots(bits, d, 512);
  }

  /** Cluster 4 appended to the chain: the bytes of both copies. */
  method AppendOne(bits: nat) returns (stream: DiskStream)
    requires IsWidth(bits)
    ensures Linked3(bits, stream.data, 0) && Linked3(bits, stream.data, 512)
  {
    hide Geometry.Fits, Geometry.Table, Geometry.Mirrored, Holds, Volume, Geometry.Last, IsChain, EndOf, ZeroSet, Linked3;
    hide Growable, Behind, Grown, Flatten, Positive, RunsOk, FreeSet, NoneAdjacent, Geometry.ScanSeesTruth;
    SampleTable(bits);
    Placed(bits);
    SampleScanned(bits);
    stream := new DiskStream(Volume(bits));
    var fat := new Fat(stream, 0, 3, bits, 512);
    ghost var t := fat.T();
    SampleChain(t, bits);
    OneRun(t, bits);
    FourFree(fat);
    var r, runs, added := fat.Alloc([Run(2, 2)], 1);
    OneMore(t, fat.T(), added, bits);
    SampleBytes(bits, stream.data);
  }
}
