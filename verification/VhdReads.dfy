/** Reading a VHD block: the sectors without a mark are taken from the image underneath. */
module VhdReads {
  import opened Bytes
  import opened BlockBitmaps
  import opened VhdLayers
  import opened VhdSteps

  /** r is what the disk shows from p on. */
  ghost predicate Fetched(k: Disk, p: nat, r: seq<Byte>) {
    forall j {:trigger r[j]} :: 0 <= j < |r| ==> r[j] == k.Shows(p + j)
  }

  lemma FetchedNone(k: Disk, p: nat)
    ensures Fetched(k, p, [])
  {
  }

  lemma FetchedMore(k: Disk, p: nat, r: seq<Byte>, s: seq<Byte>)
    requires Fetched(k, p, r) && Fetched(k, p + |r|, s)
    ensures Fetched(k, p, r + s)
  {
    hide Disk.Shows;
    forall j {:trigger (r + s)[j]} | 0 <= j < |r + s| ensures (r + s)[j] == k.Shows(p + j) {
      if j >= |r| {
        assert s[j - |r|] == k.Shows(p + |r| + (j - |r|));
      }
    }
  }

  /** What is fetched is the slice of the contents. */
  lemma FetchedSlice(k: Disk, p: nat, r: seq<Byte>)
    requires k.Over? && Fetched(k, p, r) && p + |r| <= k.top.g.size
    ensures r == k.View()[p..p + |r|]
  {
    var v := k.View();
    forall j | 0 <= j < |r| ensures r[j] == v[p + j] {
      ViewAt(k, p + j);
    }
  }

  /** A stretch of a block the image does not hold shows what is underneath. */
  lemma AbsentRun(k: Disk, p: nat, r: seq<Byte>)
    requires k.Over? && k.top.g.block > 0 && !k.top.Has(k.top.g.Blk(p)) && k.top.g.Off(p) + |r| <= k.top.g.block
    requires Fetched(k.under, p, r)
    ensures Fetched(k, p, r)
  {
    forall j {:trigger r[j]} | 0 <= j < |r| ensures r[j] == k.Shows(p + j) {
      k.top.g.Along(p, j);
    }
  }

  lemma ZerosShown(n: nat, p: nat)
    ensures Fetched(Nothing, p, Zeros(n))
  {
  }

  /** Halfway through the sectors: those before sec as the disk shows them, the others as the block stores them. */
  ghost predicate Fixing(k: Disk, i: nat, off: nat, sec: nat, r: seq<Byte>)
    requires k.Over?
  {
    forall j {:trigger r[j]} :: 0 <= j < |r| ==>
      r[j] == if (off + j) / 512 < sec then k.Shows(k.top.g.Pos(i, off + j)) else k.top.Cell(i, off + j)
  }

  lemma FixStart(k: Disk, i: nat, off: nat, r: seq<Byte>)
    requires k.Over?
    requires r == ReadAt(k.top.d, k.top.Base(i) + k.top.g.Bm() + off, |r|)
    ensures Fixing(k, i, off, off / 512, r)
  {
    hide Disk.Shows, BE32;
  }

  lemma FixSet(k: Disk, i: nat, off: nat, sec: nat, r: seq<Byte>)
    requires k.Over? && Fixing(k, i, off, sec, r) && off + |r| <= k.top.g.block
    requires k.top.Has(i) && k.top.BitOf(i, sec)
    ensures Fixing(k, i, off, sec + 1, r)
  {
    forall j {:trigger r[j]} | 0 <= j < |r|
      ensures r[j] == if (off + j) / 512 < sec + 1 then k.Shows(k.top.g.Pos(i, off + j)) else k.top.Cell(i, off + j)
    {
      ShowsIn(k.top, k.under, i, off + j);
    }
    hide Disk.Shows, Layer.Cell, Layer.BitOf;
  }

  /** Where the part of a sector inside the run begins and ends, counted from the start of the run. */
  function From(off: nat, sec: nat): nat { Max(512 * sec, off) - off }

  function To(off: nat, sec: nat, got: nat): int { Min(512 * sec + 512, off + got) - off }

  lemma FixClear(k: Disk, i: nat, off: nat, sec: nat, r: seq<Byte>, part: seq<Byte>)
    requires k.Over? && Fixing(k, i, off, sec, r) && off + |r| <= k.top.g.block
    requires off / 512 <= sec <= (off + |r| - 1) / 512 && |r| > 0
    requires k.top.Has(i) && !k.top.BitOf(i, sec)
    requires |part| == To(off, sec, |r|) - From(off, sec) && Fetched(k.under, k.top.g.Pos(i, off + From(off, sec)),
        part)
    ensures Fixing(k, i, off, sec + 1, r[..From(off, sec)] + part + r[To(off, sec, |r|)..])
  {
    var a, b := From(off, sec), To(off, sec, |r|);
    assert 0 <= a <= b <= |r|;
    var s := r[..a] + part + r[b..];
    forall j {:trigger s[j]} | 0 <= j < |s|
      ensures s[j] == if (off + j) / 512 < sec + 1 then k.Shows(k.top.g.Pos(i, off + j)) else k.top.Cell(i, off + j)
    {
      FixClearAt(k, i, off, sec, r, part, j);
    }
  }

  lemma FixClearAt(k: Disk, i: nat, off: nat, sec: nat, r: seq<Byte>, part: seq<Byte>, j: nat)
    requires k.Over? && Fixing(k, i, off, sec, r) && off + |r| <= k.top.g.block && j < |r|
    requires off / 512 <= sec <= (off + |r| - 1) / 512
    requires k.top.Has(i) && !k.top.BitOf(i, sec)
    requires |part| == To(off, sec, |r|) - From(off, sec) && Fetched(k.under, k.top.g.Pos(i, off + From(off, sec)),
        part)
    ensures (r[..From(off, sec)] + part + r[To(off, sec, |r|)..])[j] ==
      if (off + j) / 512 < sec + 1 then k.Shows(k.top.g.Pos(i, off + j)) else k.top.Cell(i, off + j)
  {
    SectorCase(off, sec, |r|, j);
    var a, b := From(off, sec), To(off, sec, |r|);
    PatchAt(r, part, a, b, j);
    hide From, To;
    if a <= j < b {
      FixClearInside(k, i, off, sec, part, a, j);
    } else {
      FixingAt(k, i, off, sec, r, j);
      hide *;
    }
  }

  lemma FixClearInside(k: Disk, i: nat, off: nat, sec: nat, part: seq<Byte>, a: nat, j: nat)
    requires k.Over? && k.top.Has(i) && !k.top.BitOf(i, sec) && (off + j) / 512 == sec && off + j < k.top.g.block
    requires a <= j < a + |part| && Fetched(k.under, k.top.g.Pos(i, off + a), part)
    ensures part[j - a] == k.Shows(k.top.g.Pos(i, off + j))
  {
    ShowsIn(k.top, k.under, i, off + j);
    PosPlus(k.top.g, i, off + a, j - a);
    FetchedAt(k.under, k.top.g.Pos(i, off + a), part, j - a);
    hide *;
  }

  lemma PatchAt(r: seq<Byte>, part: seq<Byte>, a: nat, b: nat, j: nat)
    requires a <= b <= |r| && |part| == b - a && j < |r|
    ensures (r[..a] + part + r[b..])[j] == if a <= j < b then part[j - a] else r[j]
  {
  }

  lemma FetchedAt(k: Disk, p: nat, r: seq<Byte>, j: nat)
    requires Fetched(k, p, r) && j < |r|
    ensures r[j] == k.Shows(p + j)
  {
  }

  lemma FixingAt(k: Disk, i: nat, off: nat, sec: nat, r: seq<Byte>, j: nat)
    requires k.Over? && Fixing(k, i, off, sec, r) && j < |r|
    ensures r[j] == if (off + j) / 512 < sec then k.Shows(k.top.g.Pos(i, off + j)) else k.top.Cell(i, off + j)
  {
  }

  lemma PosPlus(g: Geo, i: nat, o: nat, j: int)
    requires o + j >= 0
    ensures g.Pos(i, o + j) == g.Pos(i, o) + j
  {
  }

  lemma SectorCase(off: nat, sec: nat, got: nat, j: nat)
    requires off / 512 <= sec <= (off + got - 1) / 512 && j < got
    ensures From(off, sec) <= To(off, sec, got) <= got
    ensures From(off, sec) <= j < To(off, sec, got) ==> (off + j) / 512 == sec
    ensures j < From(off, sec) ==> (off + j) / 512 < sec
    ensures j >= To(off, sec, got) ==> (off + j) / 512 > sec
  {
  }

  lemma FixEnd(k: Disk, i: nat, off: nat, r: seq<Byte>)
    requires k.Over? && |r| > 0 && Fixing(k, i, off, (off + |r| - 1) / 512 + 1, r)
    ensures Fetched(k, k.top.g.Pos(i, off), r)
  {
    hide Disk.Shows, Layer.Cell;
  }

  /** A bitmap read from the file gives the marks of its block. */
  lemma MapRead(a: Layer, i: nat, bmp: seq<Byte>, sec: nat)
    requires bmp == ReadAt(a.d, a.Base(i), a.g.Bm()) && a.Base(i) + a.g.Bm() <= |a.d|
    ensures |bmp| == a.g.Bm()
    ensures sec < 8 * a.g.Bm() ==> IsSet(MsbFirst, bmp, sec) == a.BitOf(i, sec)
  {
    hide BE32;
    if sec < 8 * a.g.Bm() {
      BitFromMap(bmp, sec);
      assert bmp[sec / 8] == At(a.d, a.Base(i) + sec / 8);
    }
    hide IsSet;
  }
}
