/** Any history of operations on the cached disk: what each returns, where each write goes, and when that is what a flat
    array of bytes with a position would do. */
module DiskRuns {
  import opened Bytes
  import opened FlatDisk
  import opened CacheAim
  import opened CacheView
  import opened CacheState
  import opened DiskCache

  /** The array a view is of. */
  function Array(v: View): Flat { Flat(v.d, v.pos, v.Ready()) }

  /** What an operation returns: the bytes at the position, for a read. */
  function Answer(v: View, op: Op): seq<Byte>
    requires v.pos <= |v.d|
  {
    Array(v).Output(op)
  }

  /** Anything but a read of nothing at a sector boundary and a write that is not sound. */
  predicate Admitted(v: View, op: Op)
    requires v.pos <= |v.d|
  {
    match op
    case Go(_, _) => true
    case Get(n) => Asked(v.pos, n, |v.d|) > 0 || v.pos % 512 != 0
    case Store(s) => s == [] || v.Sound(s)
    case Commit => true
  }

  /** After a read of n bytes: of one sector, from its slot; of more, past the cache. */
  predicate Got(v: View, n: nat, w: View) {
    && w.d == v.d && w.pos == v.pos + n && w.si == SectorAfter(v.pos, n) && w.so == v.pos % 512
    && if Sectors(v.pos, n) == 1 then w.si in w.held && (w.at == 512 * w.si || w.at == 512 * w.si + 512)
       else w.at == 512 * w.si
  }

  /** The last dirty sector with one more. */
  function Later(last: Option<nat>, s: nat): Option<nat> { if last.Some? && last.value > s then last else Some(s) }

  /** The last dirty sector after bytes put into one slot: making room cleans all others. */
  function LastAfter(v: View): Option<nat> {
    Later(if v.si !in v.held && v.full then None else v.last, v.Aimed().Target() / 512)
  }

  /** After a write of s. */
  predicate Put(v: View, s: seq<Byte>, w: View) {
    && w.d == Written(v.d, v.Aimed(), s) && w == w.Sought(v.pos + |s|)
    && (v.so + |s| <= 512 ==> w.last == LastAfter(v))
  }

  /** What an operation makes of a view; what a transfer does to the slots is left open. */
  predicate Next(v: View, op: Op, w: View)
    requires v.pos <= |v.d|
  {
    match op
    case Go(_, _) => w == v.Sought(Clamped(Array(v).To(op), |v.d|))
    case Get(n) => Got(v, Asked(v.pos, n, |v.d|), w)
    case Store(s) => if s == [] then w == v else Put(v, s, w)
    case Commit => w == v.Flushed()
  }

  /** The views before and after each operation, and what each returned. */
  ghost predicate Trace(views: seq<View>, ops: seq<Op>, out: seq<seq<Byte>>) {
    && |views| == |ops| + 1 && |out| == |ops| && (forall i :: 0 <= i < |views| ==> views[i].Placed())
    && forall i {:trigger ops[i]} :: 0 <= i < |ops| ==>
      && Admitted(views[i], ops[i]) && Next(views[i], ops[i], views[i + 1])
      && out[i] == Answer(views[i], ops[i])
  }

  // ---- the cached disk ----

  lemma LaterLast(s: set<nat>, k: nat)
    ensures Last(s + {k}) == Later(Last(s), k)
  {
    var m := Later(Last(s), k).value;
    LastIs(s + {k}, m);
  }

  /** One operation. */
  method Run(disk: Disk, op: Op) returns (r: seq<Byte>)
    requires disk.Valid() && disk.Placed() && Admitted(disk.Look(), op)
    modifies disk, disk.file, disk.rawcache
    ensures disk.Valid() && disk.Placed() && Next(old(disk.Look()), op, disk.Look())
    ensures r == Answer(old(disk.Look()), op)
    ensures op.Commit? ==> disk.file.data == disk.disk
  {
    r := [];
    match op
    case Go(offset, whence) =>
      RunSeek(disk, offset, whence);
    case Get(n) =>
      r := RunRead(disk, n);
    case Store(s) =>
      RunWrite(disk, s);
    case Commit =>
      RunFlush(disk);
  }

  method RunSeek(disk: Disk, offset: int, whence: int)
    requires disk.Valid() && disk.Placed()
    modifies disk`pos, disk`si, disk`so, disk.file`pos
    ensures disk.Valid() && disk.Placed() && Next(old(disk.Look()), Go(offset, whence), disk.Look())
  {
    hide Cache.Stands;
    disk.Seek(offset, whence);
    disk.Stands();
  }

  method RunRead(disk: Disk, n: int) returns (r: seq<Byte>)
    requires disk.Valid() && disk.Placed() && Admitted(disk.Look(), Get(n))
    modifies disk, disk.file, disk.rawcache
    ensures disk.Valid() && disk.Placed() && Next(old(disk.Look()), Get(n), disk.Look())
    ensures r == Answer(old(disk.Look()), Get(n))
  {
    hide Cache.Stands, Unfilled, Sectors, SectorAfter, Asked;
    ghost var p := disk.pos;
    disk.Bounds();
    AskedFits(p, n, disk.size);
    r := disk.Read(n);
    SectorAtMost(p, |r|, disk.size);
    disk.Rests();
  }

  lemma AskedFits(p: nat, n: int, size: nat)
    requires p <= size
    ensures p + Asked(p, n, size) <= size
  {
  }

  lemma SectorAtMost(p: nat, n: nat, size: nat)
    requires p + n <= size && size % 512 == 0
    ensures 512 * SectorAfter(p, n) <= size
  {
  }

  method RunWrite(disk: Disk, s: seq<Byte>)
    requires disk.Valid() && disk.Placed() && Admitted(disk.Look(), Store(s))
    modifies disk, disk.file, disk.rawcache
    ensures disk.Valid() && disk.Placed() && Next(old(disk.Look()), Store(s), disk.Look())
  {
    hide Cache.Stands, Overwrite, Written, Hits;
    ghost var k := disk.Aimed().Target() / 512;
    LaterLast(if disk.si !in disk.cacheTable && disk.Full() then {} else disk.cacheDirties, k);
    disk.Write(s);
    if s != [] {
      disk.Stands();
    }
  }

  method RunFlush(disk: Disk)
    requires disk.Valid() && disk.Placed()
    modifies disk, disk.file
    ensures disk.Valid() && disk.Placed() && Next(old(disk.Look()), Commit, disk.Look())
    ensures disk.file.data == disk.disk
  {
    hide Cache.Stands;
    FlushPlaced(disk);
    disk.CacheFlush();
  }

  /** Dirty sectors are cached, cached ones are on the disk. */
  lemma FlushPlaced(disk: Disk)
    requires disk.Valid() && disk.Placed()
    ensures disk.Look().Flushed().Placed()
  {
    hide Cache.Stands;
    var last := Last(disk.cacheDirties);
    if last.Some? {
      DirtyIsCached(disk.State(), disk.disk, last.value);
      SlotRoom(disk.State(), disk.disk, last.value);
    }
  }

  /** Two writes under way that differ in the bytes of the disk and of the slot only. */
  predicate Alike(p: Progress, q: Progress) { p.rest == q.rest && q.a == p.a.(fill := q.a.fill) }

  lemma StepsAlike(p: Progress, q: Progress)
    requires Alike(p, q)
    ensures Alike(p.Head(), q.Head()) && Alike(p.Body(), q.Body())
    ensures p.HeadFits() == q.HeadFits() && p.TailFits() == q.TailFits()
  {
    hide Overwrite, Aim.Filled;
  }

  /** Whether a write is sound does not depend on those bytes. */
  lemma SoundAlike(v: View, w: View, s: seq<Byte>)
    requires |v.d| == |w.d| && w == v.(d := w.d, slot := w.slot, last := w.last)
    ensures v.Sound(s) == w.Sound(s)
  {
    hide Alike, Progress.Head, Progress.Body, Progress.HeadFits, Progress.TailFits;
    var p, q := Progress(v.d, v.Aimed(), s), Progress(w.d, w.Aimed(), s);
    assert Alike(p, q) by { AimsAlike(v, w, s); }
    StepsAlike(p, q);
    StepsAlike(p.Head(), q.Head());
    StepsAlike(p.Head().Body(), q.Head().Body());
  }

  lemma AimsAlike(v: View, w: View, s: seq<Byte>)
    requires |v.d| == |w.d| && w == v.(d := w.d, slot := w.slot, last := w.last)
    ensures Alike(Progress(v.d, v.Aimed(), s), Progress(w.d, w.Aimed(), s))
  {
  }

  /** Whether an operation is admitted, found from the fields. */
  method Admits(disk: Disk, op: Op) returns (b: bool)
    requires disk.Valid()
    ensures b == Admitted(disk.Look(), op)
  {
    b := true;
    match op
    case Get(n) =>
      b := Asked(disk.pos, n, disk.size) > 0 || disk.pos % 512 != 0;
    case Store(s) =>
      hide View.Sound, Cache.Valid;
      var v := View(disk.file.data, disk.pos, disk.si, disk.so, disk.file.pos, disk.Full(), [], disk.cacheTable.Keys,
        None);
      SoundAlike(disk.Look(), v, s);
      b := s == [] || v.Sound(s);
    case _ =>
  }

  /** One operation more. */
  lemma Extend(views: seq<View>, ops: seq<Op>, out: seq<seq<Byte>>, op: Op, w: View, r: seq<Byte>)
    requires Trace(views, ops, out) && w.Placed() && views[|ops|].Placed()
    requires Admitted(views[|ops|], op) && Next(views[|ops|], op, w) && r == Answer(views[|ops|], op)
    ensures Trace(views + [w], ops + [op], out + [r])
  {
    hide Admitted, Next, Answer, View.Placed;
    var a, b := views + [w], ops + [op];
    forall i {:trigger b[i]} | 0 <= i < |b|
      ensures a[i].Placed() && a[i].pos <= |a[i].d| && Admitted(a[i], b[i]) && Next(a[i], b[i], a[i + 1])
      ensures (out + [r])[i] == Answer(a[i], b[i])
    {
      assert i < |ops| ==> b[i] == ops[i] && views[i].Placed();
      InPlace(a[i]);
    }
  }

  lemma InPlace(v: View)
    requires v.Placed()
    ensures v.pos <= |v.d|
  {
  }

  /** Whatever the history and however small the cache, up to the first operation that is not admitted. */
  method Replay(disk: Disk, ops: seq<Op>) returns (out: seq<seq<Byte>>, ghost views: seq<View>)
    requires disk.Valid() && disk.Placed()
    modifies disk, disk.file, disk.rawcache
    ensures disk.Valid() && disk.Placed() && |out| <= |ops| && Trace(views, ops[..|out|], out)
    ensures views[0] == old(disk.Look()) && views[|out|] == disk.Look()
    ensures |out| < |ops| ==> !Admitted(views[|out|], ops[|out|])
    ensures |out| > 0 && ops[|out| - 1].Commit? ==> disk.file.data == disk.disk
  {
    hide Admitted, Next, Answer, View.Placed, Cache.Stands, Disk.Look;
    out, views := [], [disk.Look()];
    while |out| < |ops|
      invariant disk.Valid() && disk.Placed() && |out| <= |ops| && Trace(views, ops[..|out|], out)
      invariant views[0] == old(disk.Look()) && views[|out|] == disk.Look()
      invariant |out| > 0 && ops[|out| - 1].Commit? ==> disk.file.data == disk.disk
      decreases |ops| - |out|
    {
      InPlace(disk.Look());
      var op := ops[|out|];
      var b := Admits(disk, op);
      if !b {
        return;
      }
      var r := Run(disk, op);
      Extend(views, ops[..|out|], out, op, disk.Look(), r);
      assert ops[..|out|] + [op] == ops[..|out| + 1];
      out, views := out + [r], views + [disk.Look()];
    }
  }

  // ---- the flat array ----

  /** Each write of something hits. */
  ghost predicate AllHit(views: seq<View>, ops: seq<Op>)
    requires |views| >= |ops|
  {
    forall i {:trigger ops[i]} :: 0 <= i < |ops| && ops[i].Store? && ops[i].s != [] ==>
      Hits(views[i].Aimed(), |ops[i].s|)
  }

  /** So far as writes hit - land, whatever is on the disk and whatever is written - the disk is an array of bytes with
      a position, and flushes do nothing. */
  lemma {:induction false} FlatRun(views: seq<View>, ops: seq<Op>, out: seq<seq<Byte>>, f: Flat)
    requires Trace(views, ops, out) && AllHit(views, ops) && f.d == views[0].d && f.pos == views[0].pos
    ensures f.pos <= |f.d| && Steps(f, ops).d == views[|ops|].d && Steps(f, ops).pos == views[|ops|].pos
    ensures out == Outputs(f, ops)
    decreases |ops|
  {
    hide Written, Overwrite, Hits, View.Sound, Fits;
    InPlace(views[0]);
    if ops != [] {
      StepHits(views[0], ops[0], views[1], f);
      Shorter(views, ops, out);
      HitRest(views, ops);
      FlatRun(views[1..], ops[1..], out[1..], f.Step(ops[0]));
    }
  }

  lemma HitRest(views: seq<View>, ops: seq<Op>)
    requires |views| >= |ops| > 0 && AllHit(views, ops)
    ensures AllHit(views[1..], ops[1..])
  {
    hide Hits;
    forall i {:trigger ops[1..][i]} | 0 <= i < |ops| - 1
      ensures ops[1..][i] == ops[i + 1] && views[1..][i] == views[i + 1]
    {
    }
  }

  lemma StepHits(v: View, op: Op, w: View, f: Flat)
    requires v.Placed() && f.d == v.d && f.pos == v.pos && Admitted(v, op) && Next(v, op, w)
    requires op.Store? && op.s != [] ==> Hits(v.Aimed(), |op.s|)
    ensures f.Step(op).d == w.d && f.Step(op).pos == w.pos && f.Output(op) == Answer(v, op)
  {
    hide Written, Overwrite, Hits, View.Sound, Fits, View.Aimed;
    if op.Store? && op.s != [] {
      AimIsProper(v);
      AimIs(v);
      HitsLands(v.d, v.Aimed(), op.s);
    }
  }

  /** The writes of a history that is legal for a flat array all hit: each follows a seek, a write, or a read that
      leaves it ready. */
  lemma {:induction false} ReadyRun(views: seq<View>, ops: seq<Op>, n: nat, out: seq<seq<Byte>>, f: Flat)
    requires n <= |ops| && Trace(views, ops[..n], out) && (n < |ops| ==> !Admitted(views[n], ops[n]))
    requires f.pos <= |f.d| && f.d == views[0].d && f.pos == views[0].pos && (f.ready ==> views[0].Ready())
    requires AllLegal(f, ops)
    ensures n == |ops| && AllHit(views, ops)
    decreases |ops|
  {
    hide Hits, Next, View.Ready, View.Placed, Flat.Legal, Flat.Step, Admitted, Answer;
    if ops != [] {
      InPlace(views[0]);
      LegalAdmitted(views[0], ops[0], f);
      if n > 0 {
        assert ops[..n][0] == ops[0] && ops[..n][1..] == ops[1..][..n - 1];
        ReadyNext(views[0], ops[0], views[1], f);
        Shorter(views, ops[..n], out);
        ReadyRun(views[1..], ops[1..], n - 1, out[1..], f.Step(ops[0]));
        HitsFirst(views, ops);
      }
    }
  }

  lemma LegalAdmitted(v: View, op: Op, f: Flat)
    requires v.Placed() && f.pos <= |f.d| && f.d == v.d && f.pos == v.pos && (f.ready ==> v.Ready()) && f.Legal(op)
    ensures Admitted(v, op) && (op.Store? && op.s != [] ==> Hits(v.Aimed(), |op.s|))
  {
    hide Hits, View.Ready, View.Sound, View.Placed;
    if op.Store? && op.s != [] {
      ReadyHits(v, op.s);
    }
  }

  lemma ReadyNext(v: View, op: Op, w: View, f: Flat)
    requires v.Placed() && f.pos <= |f.d| && f.d == v.d && f.pos == v.pos && (f.ready ==> v.Ready()) && f.Legal(op)
    requires Admitted(v, op) && Next(v, op, w) && (op.Store? && op.s != [] ==> Hits(v.Aimed(), |op.s|))
    ensures f.Step(op).d == w.d && f.Step(op).pos == w.pos && (f.Step(op).ready ==> w.Ready())
  {
    hide Hits, View.Sound, Written, Fits;
    StepHits(v, op, w, f);
    if op.Get? {
      ReadyAfter(v.pos, Asked(v.pos, op.n, |v.d|));
    }
  }

  lemma Shorter(views: seq<View>, ops: seq<Op>, out: seq<seq<Byte>>)
    requires Trace(views, ops, out) && ops != []
    ensures Trace(views[1..], ops[1..], out[1..])
  {
    hide Admitted, Next, Answer, View.Placed;
    forall i {:trigger ops[1..][i]} | 0 <= i < |ops| - 1 ensures ops[1..][i] == ops[i + 1] {
    }
  }

  lemma HitsFirst(views: seq<View>, ops: seq<Op>)
    requires |views| >= |ops| > 0 && AllHit(views[1..], ops[1..])
    requires ops[0].Store? && ops[0].s != [] ==> Hits(views[0].Aimed(), |ops[0].s|)
    ensures AllHit(views, ops)
  {
    hide Hits;
    forall i {:trigger ops[i]} | 0 <= i < |ops| && ops[i].Store? && ops[i].s != []
      ensures Hits(views[i].Aimed(), |ops[i].s|)
    {
      if i > 0 {
        assert ops[1..][i - 1] == ops[i] && views[1..][i - 1] == views[i];
      }
    }
  }

  /** So the cached disk does for such a history, with nothing left out, what the flat array does. */
  lemma LegalRun(views: seq<View>, ops: seq<Op>, n: nat, out: seq<seq<Byte>>, f: Flat)
    requires n <= |ops| && Trace(views, ops[..n], out) && (n < |ops| ==> !Admitted(views[n], ops[n]))
    requires f.pos <= |f.d| && f.d == views[0].d && f.pos == views[0].pos && (f.ready ==> views[0].Ready())
    requires AllLegal(f, ops)
    ensures n == |ops| && out == Outputs(f, ops)
    ensures views[n].d == Steps(f, ops).d && views[n].pos == Steps(f, ops).pos
  {
    hide *;
    ReadyRun(views, ops, n, out, f);
    assert ops[..n] == ops;
    FlatRun(views, ops, out, f);
  }

  // ---- a write straight after a flush ----

  /** Nothing dirty: part of a sector is written, flushed, and more written. The second write lands exactly if the first
      ended with its sector, or filled the last slot. */
  lemma ShortTwice(v: View, s: seq<Byte>, w: View, m: nat)
    requires v.Placed() && v.Ready() && v.last.None? && s != [] && v.so + |s| <= 512 && v.pos + |s| + m <= |v.d|
    requires Next(v, Store(s), w) && w.Placed() && m > 0
    ensures Lands(w.Flushed(), m) <==> v.so + |s| == 512 || w.full
  {
    hide Lands, Written, Overwrite, Hits, Fits, View.Sound;
    ReadyHits(v, s);
    assert |w.d| == |v.d| by { AtOverwrite(v.d, v.pos, s, 0); }
    assert w.last == Some(v.si);
    LandsFlushed(w, m);
  }

  /** Where the second write goes: the first bytes of its sector, too, are what the file had behind that. */
  lemma SecondShort(v: View, s: seq<Byte>)
    requires v.Placed() && v.InStep() && v.so > 0 && v.so + |s| <= 512 && s != [] && v.Aimed().fill.Some?
    ensures v.Aimed().Target() == v.pos && !v.Aimed().reseek
    ensures Written(v.d, v.Aimed(), s) == Overwrite(Overwrite(v.d, 512 * v.si, v.Strays()), v.pos, s)
    ensures 512 * v.si + 512 <= |v.d| && v.pos + |s| <= |v.d| ==> v.Sound(s)
  {
    hide Written, Overwrite;
    HeadLands(v.d, v.Aimed(), s);
    hide Fits;
  }

  /** A hundred ones written from the start of an empty disk, a flush, a hundred twos: the ones are gone. */
  method FlushLosesBytes() returns (disk: Disk)
    ensures fresh(disk) && disk.Valid() && disk.pos == 200
    ensures disk.disk == Overwrite(Zeros(1024), 100, Fill(100, 2))
    ensures disk.disk != Overwrite(Overwrite(Zeros(1024), 0, Fill(100, 1)), 100, Fill(100, 2))
  {
    hide Cache.Stands, Overwrite, Disk.Look, Disk.Valid, Disk.Synced;
    var file := new File(Zeros(1024));
    var slots := new Byte[1024];
    disk := new Disk(file, slots);
    disk.Seek(0, 0);
    StoreOnes(disk);
    FlushOnes(disk);
    StoreTwos(disk);
    OnesLost(Overwrite(Zeros(1024), 0, Fill(100, 1)));
  }

  method StoreOnes(disk: Disk)
    requires disk.Valid() && disk.Synced() && disk.pos == 0 && disk.size == 1024 == disk.rawcache.Length
    requires disk.cacheIndex == 0 && disk.cacheTable == map[] && disk.cacheDirties == {}
    modifies disk, disk.file, disk.rawcache
    ensures disk.Valid() && disk.Synced() && disk.pos == 100 && disk.cacheDirties == {0} && disk.cacheIndex == 512
    ensures disk.disk == Overwrite(old(disk.disk), 0, Fill(100, 1))
  {
    hide Cache.Stands, Overwrite, Hits, Written, Fits, View.Sound;
    disk.Stands();
    ReadyHits(disk.Look(), Fill(100, 1));
    disk.Write(Fill(100, 1));
  }

  method FlushOnes(disk: Disk)
    requires disk.Valid() && disk.Synced() && disk.pos == 100 && disk.size == 1024 == disk.rawcache.Length
    requires disk.cacheDirties == {0} && disk.cacheIndex == 512
    modifies disk, disk.file
    ensures disk.Valid() && disk.Placed() && disk.disk == old(disk.disk)
    ensures var v := disk.Look(); v.InStep() && v.pos == 100 && v.at == 512 && v.held == {} && !v.full
  {
    hide Cache.Stands, Overwrite;
    disk.Stands();
    FlushPlaced(disk);
    LastIs({0}, 0);
    disk.CacheFlush();
  }

  method StoreTwos(disk: Disk)
    requires disk.Valid() && disk.Placed() && disk.size == 1024
    requires var v := disk.Look(); v.InStep() && v.pos == 100 && v.at == 512 && v.held == {} && !v.full
    modifies disk, disk.file, disk.rawcache
    ensures disk.Valid() && disk.pos == 200 && |old(disk.disk)| == 1024
    ensures disk.disk == Overwrite(Overwrite(old(disk.disk), 0, old(disk.disk)[512..1024]), 100, Fill(100, 2))
  {
    hide Cache.Stands, Overwrite, Hits, Written, Fits, View.Sound;
    SecondShort(disk.Look(), Fill(100, 2));
    disk.Write(Fill(100, 2));
  }

  lemma OnesLost(d: seq<Byte>)
    requires d == Overwrite(Zeros(1024), 0, Fill(100, 1))
    ensures |d| == 1024
    ensures Overwrite(Overwrite(d, 0, d[512..1024]), 100, Fill(100, 2)) == Overwrite(Zeros(1024), 100, Fill(100, 2))
    ensures Overwrite(Zeros(1024), 100, Fill(100, 2)) != Overwrite(d, 100, Fill(100, 2))
  {
    assert Overwrite(d, 0, d[512..1024]) == Zeros(1024);
    assert Overwrite(d, 100, Fill(100, 2))[0] == 1 && Overwrite(Zeros(1024), 100, Fill(100, 2))[0] == 0;
  }
}
