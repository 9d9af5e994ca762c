/** A disk behind a write-back sector cache. */
module DiskCache {
  import opened Bytes
  import opened FlatDisk
  import opened CacheAim
  import opened CacheState
  import opened CacheView

  /** The greatest of some sectors. */
  ghost function Last(s: set<nat>): (m: Option<nat>)
    ensures m.None? <==> s == {}
    ensures m.Some? ==> m.value in s && forall t :: t in s ==> t <= m.value
  {
    if s == {} then None
    else
      var t :| t in s;
      var r := Last(s - {t});
      assert forall x :: x in s ==> x == t || x in s - {t};
      if r.Some? && r.value > t then r else Some(t)
  }

  lemma LastIs(s: set<nat>, m: nat)
    requires m in s && forall t :: t in s ==> t <= m
    ensures Last(s) == Some(m)
  {
  }

  /** There is a least one. */
  lemma LeastOf(s: set<nat>) returns (m: nat)
    requires s != {}
    ensures m in s && forall t :: t in s ==> m <= t
    decreases |s|
  {
    var k :| k in s;
    m := k;
    if s - {k} != {} {
      var r := LeastOf(s - {k});
      m := Min(k, r);
    }
    assert forall t :: t in s ==> t == k || t in s - {k};
  }

  class Disk {
    const file: File
    const size: nat
    const rawcache: array<Byte>       // the slots
    var pos: nat                      // linear position
    var si: nat                       // sector and offset the last seek left
    var so: nat
    var lastsi: nat
    var asize: nat                    // bytes of whole sectors a transfer needs
    var cacheIndex: nat               // next free slot
    var cacheTable: map<nat, nat>     // sector to slot
    var cacheTableR: map<nat, nat>    // slot to sector
    var cacheDirties: set<nat>
    ghost var disk: seq<Byte>         // what the disk holds for its users

    ghost function State(): Cache
      reads this`cacheIndex, this`cacheTable, this`cacheTableR, this`cacheDirties, file`data, rawcache
    {
      Cache(file.data, rawcache[..], cacheIndex, cacheTable, cacheTableR, cacheDirties)
    }

    ghost predicate Valid()
      reads this`cacheIndex, this`cacheTable, this`cacheTableR, this`cacheDirties, this`disk, this`pos, file`data,
          rawcache
    {
      State().Stands(disk) && |disk| == size && rawcache.Length >= 512 && pos <= size
    }

    /** Sector, offset and file position match the position: so they do after a seek or a write, not after every
        read. */
    ghost predicate Synced()
      reads this`pos, this`si, this`so, file`pos
    {
      si == pos / 512 && so == pos % 512 && file.pos == 512 * si
    }

    /** What decides where the next write goes. */
    ghost function Look(): View
      reads this`pos, this`si, this`so, this`cacheTable, this`cacheIndex, this`cacheDirties, this`disk, file`pos,
          rawcache
    {
      View(disk, pos, si, so, file.pos, Full(), ReadAt(rawcache[..], cacheIndex, 512), cacheTable.Keys,
        Last(cacheDirties))
    }

    ghost function Aimed(): Aim
      reads this`pos, this`si, this`so, this`cacheTable, this`cacheIndex, this`cacheDirties, this`disk, file`pos,
          rawcache
    {
      Look().Aimed()
    }

    /** The file stands at the current sector, or behind it if that has just been read into a slot. */
    ghost predicate Settled()
      reads this`si, this`so, this`cacheTable, this`cacheDirties, file`pos
    {
      && so < 512
      && (file.pos == 512 * si || (file.pos == 512 * si + 512 && si in cacheTable && si !in cacheDirties))
    }

    /** So it does, or nothing is cached: as any operation leaves it, but for a read of nothing at a boundary. */
    ghost predicate Placed()
      reads this`pos, this`si, this`so, this`cacheTable, this`cacheIndex, this`cacheDirties, this`disk, file`pos,
          rawcache
    {
      Look().Placed() && (Settled() || cacheTable == map[])
    }

    constructor (file: File, slots: array<Byte>)
      requires |file.data| > 0 && |file.data| % 512 == 0 && slots.Length % 512 == 0 && slots.Length >= 512
      ensures Valid() && this.file == file && rawcache == slots && disk == file.data && pos == 0
      ensures cacheIndex == 0 && cacheTable == map[] && cacheDirties == {}
    {
      this.file := file;
      size := |file.data|;
      rawcache := slots;
      pos, si, so, lastsi, asize := 0, 0, 0, 0, 0;
      cacheIndex := 0;
      cacheTable := map[];
      cacheTableR := map[];
      cacheDirties := {};
      disk := file.data;
    }

    method Seek(offset: int, whence: int)
      modifies this`pos, this`si, this`so, file`pos
      ensures pos == Clamped(if whence == 1 then old(pos) + offset else
          if whence == 2 then (if size > 0 then size + offset else old(pos)) else offset, size)
      ensures pos == Max(0, Min(size, if whence == 1 then old(pos) + offset else
          if whence == 2 then (if size == 0 then old(pos) else size + offset) else offset))
      ensures Synced() && pos <= size
    {
      var to := offset;
      if whence == 1 {
        to := pos + offset;
      } else if whence == 2 {
        to := if size > 0 then size + offset else pos;
      }
      pos := Clamped(to, size);
      si := pos / 512;
      so := pos % 512;
      file.Seek(si * 512);
    }

    /** cache_flush of one sector: its slot goes to the file and it is clean. */
    method FlushSector(sector: nat)
      requires Valid() && sector in cacheDirties
      modifies this`cacheDirties, file
      ensures Valid() && cacheDirties == old(cacheDirties) - {sector} && file.pos == 512 * sector + 512
    {
      hide Overwrite, Slot, ReadAt, Cache.Stands;
      ghost var c := State();
      DirtyIsCached(c, disk, sector);
      file.Seek(sector * 512);
      var i := cacheTable[sector];
      file.Write(rawcache[i..i + 512]);
      cacheDirties := cacheDirties - {sector};
      CommitKeeps(c, sector, disk);
      assert State() == Committed(c, sector);
    }

    /** cache_flush: every dirty sector goes to the file, in ascending order, and the tables are emptied either way. */
    method CacheFlush()
      requires Valid()
      modifies this`cacheDirties, this`cacheTable, this`cacheTableR, file
      ensures Valid() && file.data == disk
      ensures Look() == old(Look()).Flushed()
    {
      hide Cache.Stands;
      ghost var last: Option<nat> := None;
      while cacheDirties != {}
        invariant Valid() && cacheDirties <= old(cacheDirties)
        invariant last.None? ==> cacheDirties == old(cacheDirties) && file.pos == old(file.pos)
        invariant last.Some? ==> file.pos == 512 * last.value + 512 && last.value in old(cacheDirties)
        invariant last.Some? ==> forall t :: t in old(cacheDirties) ==> t <= last.value || t in cacheDirties
        invariant last.Some? ==> forall t :: t in cacheDirties ==> last.value < t
        decreases cacheDirties
      {
        ghost var least := LeastOf(cacheDirties);
        var sec :| sec in cacheDirties && forall t :: t in cacheDirties ==> sec <= t;
        FlushSector(sec);
        last := Some(sec);
      }
      if last.Some? {
        LastIs(old(cacheDirties), last.value);
      }
      ResetKeeps(State(), disk);
      cacheTable := map[];
      cacheTableR := map[];
    }

    /** cache_retrieve of several sectors: the dirty ones among them go to the file; it counts as a miss. */
    method RetrieveMany()
      requires Valid() && Synced() && asize % 512 == 0
      modifies this`cacheDirties, this`pos, this`si, this`so, file
      ensures Valid() && Synced() && pos == old(pos)
      ensures forall s {:trigger s in cacheDirties} :: si <= s < si + asize / 512 ==> s !in cacheDirties
    {
      hide Cache.Stands;
      var i := 0;
      while i < asize / 512
        invariant i <= asize / 512 && Valid() && Synced() && pos == old(pos)
        invariant forall s {:trigger s in cacheDirties} :: si <= s < si + i ==> s !in cacheDirties
      {
        if si + i in cacheDirties {
          FlushSector(si + i);
          Seek(pos, 0);
        }
        i := i + 1;
      }
    }

    /** No slot is left. */
    predicate Full()
      reads this`cacheIndex
    {
      cacheIndex + 512 > rawcache.Length
    }

    /** The next free slot once one more sector has been read. */
    function NextIndex(): nat
      reads this`cacheIndex
    {
      if Full() then 512 else cacheIndex + 512
    }

    /** The disk is d, with the current sector's slot called dirty. */
    ghost predicate Marked(d: seq<Byte>)
      reads this`cacheIndex, this`cacheTable, this`cacheTableR, this`cacheDirties, this`pos, this`si, file`data,
          rawcache
    {
      State().(dirties := cacheDirties + {si}).Stands(d) && |d| == size && rawcache.Length >= 512 && pos <= size
    }

    /** cache_readinto: one sector, from where the file stands, into the next slot. Once they run out all slots are
        reused, and a seek to the position makes its sector the one that is read. */
    method ReadInto()
      requires Valid() && asize == 512 && si !in cacheTable
      requires if Full() then pos < size else 512 * si + 512 <= size && Placed()
      modifies this`cacheIndex, this`cacheDirties, this`cacheTable, this`cacheTableR, this`pos, this`si, this`so,
          file, rawcache
      ensures si in cacheTable && Marked(old(Aimed()).Filled(disk))
      ensures old(Full() || file.pos == 512 * si) ==> Valid() && si !in cacheDirties && file.pos == 512 * si + 512
      ensures pos == old(pos) && si == if old(Full()) then pos / 512 else old(si)
      ensures so == if old(Full()) then pos % 512 else old(so)
      ensures cacheIndex == old(NextIndex()) && cacheDirties == if old(Full()) then {} else old(cacheDirties)
    {
      hide Cache.Stands;
      WholeFile(State(), disk);
      NotDirty(State(), disk, si);
      if cacheIndex + asize > rawcache.Length {
        MakeRoom();
      }
      ghost var c := State();
      Parts(c, disk);
      if file.pos == 512 * si {
        LoadKeeps(c, si, disk);
        MarkKeeps(Loaded(c, si), si, disk);
      } else {
        StrayKeeps(c, si, file.pos, disk);
      }
      LoadSlot();
    }

    /** All slots become free, and a seek to the position makes its sector the current one. */
    method MakeRoom()
      requires Valid()
      modifies this`cacheIndex, this`cacheDirties, this`cacheTable, this`cacheTableR, this`pos, this`si, this`so, file
      ensures Valid() && Synced() && pos == old(pos)
      ensures cacheIndex == 0 && cacheTable == map[] && cacheDirties == {}
    {
      hide Cache.Stands;
      CacheFlush();
      RestartKeeps(State(), disk);
      cacheIndex := 0;
      Seek(pos, 0);
    }

    method LoadSlot()
      requires si !in cacheTable && cacheIndex + 512 <= rawcache.Length
      requires forall s {:trigger cacheTable[s]} :: s in cacheTable ==> cacheTable[s] != cacheIndex
      modifies this`cacheIndex, this`cacheTable, this`cacheTableR, file`pos, rawcache
      ensures State() == LoadedFrom(old(State()), si, old(file.pos))
      ensures old(file.pos) + 512 <= |file.data| ==> file.pos == old(file.pos) + 512
    {
      hide Overwrite;
      var s := file.Read(512);
      Put(cacheIndex, s);
      var v := cacheIndex;
      cacheIndex := cacheIndex + 512;
      NoneAt(v);
      cacheTable := (map s: nat | s in cacheTable && cacheTable[s] != v :: cacheTable[s])[si := v];
      cacheTableR := cacheTableR[v := si];
    }

    /** No sector is linked to the slot, so none is unlinked. */
    lemma NoneAt(v: nat)
      requires forall s {:trigger cacheTable[s]} :: s in cacheTable ==> cacheTable[s] != v
      ensures (map s: nat | s in cacheTable && cacheTable[s] != v :: cacheTable[s]) == cacheTable
    {
    }

    /** Bytes into the slot buffer. */
    method Put(at: nat, s: seq<Byte>)
      requires at + |s| <= rawcache.Length
      modifies rawcache
      ensures rawcache[..] == Overwrite(old(rawcache[..]), at, s)
    {
      forall k | 0 <= k < |s| {
        rawcache[at + k] := s[k];
      }
      ghost var was := old(rawcache[..]);
      forall k | 0 <= k < rawcache.Length ensures |Overwrite(was, at, s)| == |was| && rawcache[k] == Overwrite(was, at, s)[k] {
        OverwriteAt(was, at, s, k);
      }
    }

    /** Bytes of the current sector, from its slot. */
    method Hit(from: nat, n: nat) returns (r: seq<Byte>)
      requires Valid() && si in cacheTable && from + n <= 512
      ensures 512 * si + 512 <= size && r == disk[512 * si + from..512 * si + from + n]
    {
      hide Cache.Stands;
      SlotRoom(State(), disk, si);
      var i := cacheTable[si];
      r := rawcache[i + from..i + from + n];
      SlotShows(State(), disk, si, from, n);
    }

    /** read: the bytes from the position on, to the end of the disk at most; -1 asks for all of them. */
    method Read(n: int) returns (r: seq<Byte>)
      requires Valid()
      modifies this`cacheIndex, this`cacheDirties, this`cacheTable, this`cacheTableR, this`pos, this`si, this`so,
          this`lastsi, this`asize, file, rawcache
      ensures r == old(disk)[old(pos)..old(pos) + Asked(old(pos), n, size)] && pos == old(pos) + |r| &&
          disk == old(disk)
      ensures |r| == if n < 0 then size - old(pos) else Min(n, size - old(pos))
      ensures |r| > 0 || pos % 512 != 0 ==> Valid()
      ensures |r| == 0 && pos % 512 == 0 ==> State() == Unfilled(old(State()), pos / 512)
      ensures Settled() && so == old(pos) % 512 && si == SectorAfter(old(pos), |r|)
      ensures Sectors(old(pos), |r|) == 1 ==> si in cacheTable
      ensures Sectors(old(pos), |r|) == 1 && old(pos / 512 !in cacheTable) ==> cacheIndex == old(NextIndex())
      ensures Sectors(old(pos), |r|) != 1 ==> file.pos == 512 * si
    {
      hide *;
      Stays();
      AskedIs(pos, n, size);
      Seek(pos, 0);
      r := ReadAsked(n);
    }

    lemma Stays()
      requires Valid()
      ensures Clamped(pos, size) == pos <= size == |disk|
    {
    }

    /** read, once the file stands at the sector. */
    method ReadAsked(n: int) returns (r: seq<Byte>)
      requires Valid() && Synced()
      modifies this`cacheIndex, this`cacheDirties, this`cacheTable, this`cacheTableR, this`pos, this`si, this`so,
          this`lastsi, this`asize, file, rawcache
      ensures r == old(disk)[old(pos)..old(pos) + Asked(old(pos), n, size)] && pos == old(pos) + |r| &&
          disk == old(disk)
      ensures |r| > 0 || pos % 512 != 0 ==> Valid()
      ensures |r| == 0 && pos % 512 == 0 ==> State() == Unfilled(old(State()), pos / 512)
      ensures Settled() && so == old(pos) % 512 && si == SectorAfter(old(pos), |r|)
      ensures Sectors(old(pos), |r|) == 1 ==> si in cacheTable
      ensures Sectors(old(pos), |r|) == 1 && old(pos / 512 !in cacheTable) ==> cacheIndex == old(NextIndex())
      ensures Sectors(old(pos), |r|) != 1 ==> file.pos == 512 * si
    {
      hide Cache.Stands, Unfilled, Sectors, SectorAfter, Asked, Disk.Valid;
      Bounds();
      var get := Asked(pos, n, size);
      Spans(pos, n, size);
      ReadyAfter(pos, get);
      asize := (CeilDiv(pos + get, 512) - si) * 512;
      hide CeilDiv;
      r := Serve(get);
    }

    lemma Bounds()
      requires Valid()
      ensures pos <= size && size % 512 == 0 && |disk| == size
    {
      WholeFile(State(), disk);
    }

    /** The read itself: from a slot, past the cache, or of nothing. */
    method Serve(get: nat) returns (r: seq<Byte>)
      requires Valid() && Synced() && asize % 512 == 0 && pos + get <= size
      requires asize == 0 <==> get == 0 && pos % 512 == 0
      requires asize > 0 ==> so + get <= asize && 512 * si + asize <= size
      requires asize > 512 ==> get > 0 && asize < so + get + 512
      modifies this`cacheIndex, this`cacheDirties, this`cacheTable, this`cacheTableR, this`pos, this`si, this`so,
          this`lastsi, file, rawcache
      ensures old(pos) + get <= |old(disk)| && r == old(disk)[old(pos)..old(pos) + get] && pos == old(pos) + get
      ensures asize > 0 ==> Valid()
      ensures asize == 0 ==> State() == Unfilled(old(State()), pos / 512)
      ensures Settled() && so == old(so) && si == old(si) + if asize > 512 then asize / 512 else 0
      ensures asize == 512 ==> si in cacheTable && (old(si !in cacheTable) ==> cacheIndex == old(NextIndex()))
      ensures asize != 512 ==> file.pos == 512 * si
    {
      hide Cache.Stands, Unfilled;
      if asize == 512 {
        r := ReadOne(get);
      } else if asize > 512 {
        r := ReadDirect(get);
      } else {
        r := [];
        RegisterSlot();
      }
    }

    /** Within one sector: from the cache, filled first on a miss. */
    method ReadOne(get: nat) returns (r: seq<Byte>)
      requires Valid() && Synced() && asize == 512 && so + get <= 512 && 512 * si + 512 <= size
      modifies this`cacheIndex, this`cacheDirties, this`cacheTable, this`cacheTableR, this`pos, this`si, this`so,
          this`lastsi, file, rawcache
      ensures Valid() && old(pos) + get <= size && r == disk[old(pos)..old(pos) + get] && pos == old(pos) + get
      ensures si == old(si) && so == old(so) && si in cacheTable && Settled()
      ensures old(si !in cacheTable) ==> cacheIndex == old(NextIndex())
    {
      hide Cache.Stands;
      if si !in cacheTable {
        Stands();
        ReadInto();
      }
      r := Hit(so, get);
      lastsi := si;
      pos := pos + get;
    }

    /** Several sectors: dirty ones are flushed, then the file is read, past the cache. */
    method ReadDirect(get: nat) returns (r: seq<Byte>)
      requires Valid() && Synced() && pos + get <= size && get > 0 && asize % 512 == 0
      requires so + get <= asize < so + get + 512 && 512 * si + asize <= size
      modifies this`cacheDirties, this`pos, this`si, this`so, file
      ensures Valid() && r == disk[old(pos)..old(pos) + get] && pos == old(pos) + get
      ensures si == old(si) + asize / 512 && so == old(so) && file.pos == 512 * si
    {
      hide Cache.Stands, ReadAt;
      RetrieveMany();
      FileShows(State(), disk, si, asize / 512);
      file.Seek(si * 512);
      var buf := file.Read(asize);
      SliceOf(disk, si, asize, so, get);
      r := buf[so..so + get];
      si := si + asize / 512;
      pos := pos + get;
    }

    /** A read of nothing at a sector boundary enters a slot it does not fill. */
    method RegisterSlot()
      modifies this`cacheTable, this`cacheTableR
      ensures State() == Unfilled(old(State()), si)
    {
      cacheTable := (map s: nat | s in cacheTable && cacheTable[s] != cacheIndex :: cacheTable[s])[si := cacheIndex];
      cacheTableR := cacheTableR[cacheIndex := si];
    }

    /** The dirty sectors once bytes are put into a slot. */
    ghost function DirtyAfter(): set<nat>
      reads this`pos, this`si, this`so, this`cacheTable, this`cacheIndex, this`cacheDirties, this`disk, file`pos,
          rawcache
    {
      (if si !in cacheTable && Full() then {} else cacheDirties) + {Aimed().Target() / 512}
    }

    /** The next free slot once bytes are put into a slot. */
    function IndexAfter(): nat
      reads this`si, this`cacheTable, this`cacheIndex
    {
      if si in cacheTable then cacheIndex else NextIndex()
    }

    /** Part of a sector, or a whole one, into its slot. */
    method WriteSlot(b: seq<Byte>)
      requires Valid() && Placed() && 0 < |b| && Aimed().SlotFits(|b|) && pos + |b| <= size
      requires Aimed().reseek || 512 * si + 512 <= size
      modifies this, file, rawcache
      ensures Valid() && disk == Overwrite(old(Aimed()).Filled(old(disk)), old(Aimed()).Target(), b)
      ensures pos == old(pos) + |b| && cacheDirties == old(DirtyAfter()) && cacheIndex == old(IndexAfter())
    {
      hide Cache.Stands, Overwrite;
      WholeFile(State(), disk);
      asize := 512;
      ghost var d := Aimed().Filled(disk);
      if si !in cacheTable {
        ReadInto();
      } else {
        MarkKeeps(State(), si, disk);
      }
      StoreInSlot(b, d);
    }

    /** Bytes for a sector that has its slot. */
    method StoreInSlot(b: seq<Byte>, ghost d: seq<Byte>)
      requires Marked(d) && si in cacheTable && so + |b| <= 512 && 0 < |b| && pos + |b| <= size
      modifies this`cacheDirties, this`disk, this`pos, rawcache
      ensures Valid() && disk == Overwrite(d, 512 * si + so, b) && pos == old(pos) + |b|
      ensures cacheDirties == old(cacheDirties) + {si}
    {
      hide Cache.Stands, Overwrite, Poked;
      ghost var c := State().(dirties := cacheDirties + {si});
      SlotRoom(c, d, si);
      Put(cacheTable[si] + so, b);
      cacheDirties := cacheDirties + {si};
      PokeKeeps(c, si, so, b, d);
      IsPoked(c, State(), si, so, b);
      SameLength(d, 512 * si + so, b);
      disk := Overwrite(d, 512 * si + so, b);
      pos := pos + |b|;
    }

    /** Whole sectors straight to the file, where it stands; the sectors from si on leave the cache. */
    method WriteDirect(b: seq<Byte>, full: nat)
      requires Valid() && Placed() && |b| == full * 512 && pos + |b| <= size && file.pos + |b| <= size && full > 0
      requires file.pos == 512 * si || si + full !in cacheTable
      modifies this, file
      ensures Valid() && disk == Overwrite(old(disk), old(file.pos), b) && pos == old(pos) + |b|
    {
      hide Cache.Stands, Overwrite, Dropping;
      ghost var a := file.pos / 512;
      DropRange(full);
      DirectKeeps(State(), disk, a, a + full, b);
      ghost var c := State();
      file.Write(b);
      SameLength(disk, 512 * a, b);
      disk := Overwrite(disk, 512 * a, b);
      assert State() == c.(file := Overwrite(c.file, 512 * a, b));
      pos := pos + full * 512;
    }

    /** The sectors from si on leave the cache: all that will be written are gone. */
    method DropRange(full: nat)
      requires Valid() && Placed() && full > 0 && (file.pos == 512 * si || si + full !in cacheTable)
      modifies this`cacheTable, this`cacheTableR, this`cacheDirties
      ensures Dropping(State(), disk, file.pos / 512, file.pos / 512 + full)
    {
      hide Cache.Stands, Dropping, Dropped;
      ghost var a, empty := file.pos / 512, cacheTable == map[];
      var s := si;
      assert empty || a == si || (a == si + 1 && si !in cacheDirties);
      DropStart(State(), disk, a);
      while s < si + full
        invariant si <= s <= si + full && (empty || a == si || si + full !in cacheTable)
        invariant if empty then State().Stands(disk) && cacheTable == map[]
          else if s < a then State().Stands(disk) && s !in cacheDirties else Dropping(State(), disk, a, s)
      {
        if empty {
          DropNone(State(), s);
        } else {
          DropOne(State(), disk, a, s);
        }
        Drop(s);
        s := s + 1;
      }
      if empty {
        NoneDropped(State(), disk, a, full);
      } else if a != si {
        DropLast(State(), disk, a, s);
      }
    }

    method Drop(s: nat)
      modifies this`cacheTable, this`cacheTableR, this`cacheDirties
      ensures State() == Dropped(old(State()), s)
      ensures forall t :: t in cacheTable ==> t in old(cacheTable)
    {
      if s in cacheTable {
        var slot := cacheTable[s];
        cacheTableR := cacheTableR - {slot};
        cacheTable := cacheTable - {s};
        cacheDirties := cacheDirties - {s};
      }
    }

    /** write: through the slots for partial sectors, past the cache for more than one whole sector. The bytes go where
        sector, offset and file position aim, to the position if the write hits. */
    method Write(s: seq<Byte>)
      requires Valid() && pos + |s| <= size && (s == [] || (Placed() && Look().Sound(s)))
      modifies this, file, rawcache
      ensures Valid() && pos == old(pos) + |s| &&
          (if s == [] then unchanged(this) && unchanged(file) && unchanged(rawcache) else Synced())
      ensures disk == if s == [] then old(disk) else Written(old(disk), old(Aimed()), s)
      ensures s == [] || old(Hits(Aimed(), |s|)) ==> disk == Overwrite(old(disk), old(pos), s)
      ensures s != [] && old(so) + |s| <= 512 ==>
          cacheDirties == old(DirtyAfter()) && cacheIndex == old(IndexAfter())
    {
      hide Cache.Stands, Overwrite, Hits, Fits, Written, View.Sound, View.Aimed;
      OverwriteNone(disk, pos);
      if |s| == 0 {
        return;
      }
      AimIsProper(Look());
      AimIs(Look());
      if Hits(Aimed(), |s|) {
        HitsLands(disk, Aimed(), s);
      }
      WriteSound(s);
    }

    ghost function Writing(s: seq<Byte>): Progress
      reads this`pos, this`si, this`so, this`cacheTable, this`cacheIndex, this`cacheDirties, this`disk, file`pos,
          rawcache
    {
      Progress(disk, Aimed(), s)
    }

    /** The three steps of a write. */
    method WriteSound(s: seq<Byte>)
      requires Valid() && Placed() && s != [] && Look().Sound(s)
      modifies this, file, rawcache
      ensures Valid() && pos == old(pos) + |s| && Synced()
      ensures disk == Written(old(disk), old(Aimed()), s)
      ensures old(so) + |s| <= 512 ==>
          cacheDirties == old(DirtyAfter()) && cacheIndex == old(IndexAfter())
    {
      hide Cache.Stands, Overwrite, Progress.Head, Progress.Body, Progress.Tail, Progress.HeadFits, Progress.TailFits;
      hide Aim.SlotFits, View.Sound, View.Placed, Written, Disk.Aimed, Disk.Valid, Disk.Settled, Disk.Placed, Writing;
      hide Disk.HeadSound, Disk.BodySound, Disk.TailSound, Disk.Synced, Disk.Look, Disk.DirtyAfter, Disk.IndexAfter;
      SoundSteps(s);
      var rest := WriteHead(s);
      AfterHead(rest);
      rest := WriteBody(rest);
      AfterBody(rest);
      WriteTail(rest);
      Resettle();
    }

    /** What the three steps of a write demand of the aim: room in the slot, a place in the file, room in the slot. */
    ghost predicate HeadSound(s: seq<Byte>)
      reads this`pos, this`si, this`so, this`cacheTable, this`cacheIndex, this`cacheDirties, this`disk, file`pos,
          rawcache
    {
      Writing(s).HeadFits() && (so > 0 ==> Aimed().reseek || 512 * si + 512 <= size)
    }

    ghost predicate BodySound(s: seq<Byte>)
      reads this`si, this`cacheTable, file`pos
    {
      |s| > 512 ==> file.pos + |s| / 512 * 512 <= size && (file.pos == 512 * si || si + |s| / 512 !in cacheTable)
    }

    ghost predicate TailSound(s: seq<Byte>)
      reads this`pos, this`si, this`so, this`cacheTable, this`cacheIndex, this`cacheDirties, this`disk, file`pos,
          rawcache
    {
      Writing(s).TailFits() && (s != [] ==> Aimed().reseek || 512 * si + 512 <= size)
    }

    lemma AfterHead(rest: seq<Byte>)
      requires Valid() && pos + |rest| <= size
      ensures Synced() ==> BodySound(rest)
    {
      hide Cache.Stands;
    }

    lemma AfterBody(rest: seq<Byte>)
      requires Valid() && pos + |rest| <= size && Writing(rest).TailFits()
      ensures Synced() ==> TailSound(rest)
    {
      Bounds();
      if rest != [] {
        SectorInside(pos, |rest|, size);
      }
      hide Disk.Valid;
    }

    /** After a seek. */
    lemma Stands()
      requires Valid() && Synced()
      ensures Placed() && Aimed() == Seeked(pos)
    {
      Bounds();
    }

    /** The end of write: a seek to the position. */
    method Resettle()
      requires Valid()
      modifies this`pos, this`si, this`so, this`lastsi, file`pos
      ensures Valid() && pos == old(pos) && Synced()
    {
      hide Cache.Stands;
      Seek(pos, 0);
      lastsi := si;
    }

    lemma SoundSteps(s: seq<Byte>)
      requires Valid() && Look().Sound(s)
      ensures size % 512 == 0 && |disk| == size && pos + |s| <= size
      ensures HeadSound(s) && Writing(s).Head().Body().TailFits()
      ensures Written(disk, Aimed(), s) == Writing(s).Head().Body().Tail().d
      ensures so == 0 ==> BodySound(s) && (|s| <= 512 ==> TailSound(s))
    {
      hide Overwrite;
    }

    /** Up to the end of the sector the offset is in. */
    method WriteHead(s: seq<Byte>) returns (rest: seq<Byte>)
      requires Valid() && Placed() && s != [] && pos + |s| <= size
      requires HeadSound(s)
      modifies this, file, rawcache
      ensures Valid() && Placed() && pos == old(pos) + (|s| - |rest|)
      ensures Writing(rest) == old(Writing(s)).Head()
      ensures if old(so) == 0 then rest == s && unchanged(this) && unchanged(file) && unchanged(rawcache) else Synced()
      ensures 0 < old(so) && old(so) + |s| <= 512 ==>
          rest == [] && cacheDirties == old(DirtyAfter()) && cacheIndex == old(IndexAfter())
    {
      hide *;
      HeadFacts(s);
      if so == 0 {
        return s;
      }
      var j := Min(512 - so, |s|);
      WriteSlot(s[..j]);
      rest := s[j..];
      SeekHere();
      WritingIs(rest);
    }

    /** seek(self.pos) */
    method SeekHere()
      requires Valid()
      modifies this`pos, this`si, this`so, file`pos
      ensures Valid() && pos == old(pos) && Synced() && Placed() && Aimed() == Seeked(pos)
    {
      hide Cache.Stands;
      Seek(pos, 0);
      Stands();
    }

    lemma HeadFacts(s: seq<Byte>)
      requires Placed() && s != [] && HeadSound(s)
      ensures so == 0 ==> Writing(s) == Writing(s).Head()
      ensures so > 0 ==> so < 512 && var j := Min(512 - so, |s|);
        0 < j <= |s| && Aimed().SlotFits(j) && (Aimed().reseek || 512 * si + 512 <= size) && Writing(s).Head() ==
          Progress(Overwrite(Aimed().Filled(disk), Aimed().Target(), s[..j]), Seeked(pos + j), s[j..])
      ensures so > 0 && so + |s| <= 512 ==> Min(512 - so, |s|) == |s|
    {
      hide Overwrite, Aim.Filled;
    }

    lemma WritingIs(s: seq<Byte>)
      ensures Writing(s) == Progress(disk, Aimed(), s)
    {
    }

    /** All whole sectors left, when there is more than one sector's worth. */
    method WriteBody(s: seq<Byte>) returns (rest: seq<Byte>)
      requires Valid() && Placed() && pos + |s| <= size
      requires BodySound(s)
      modifies this, file
      ensures Valid() && Placed() && pos == old(pos) + (|s| - |rest|)
      ensures Writing(rest) == old(Writing(s)).Body()
      ensures if |s| <= 512 then rest == s && unchanged(this) && unchanged(file) else Synced() && |rest| < 512
    {
      hide *;
      BodyFacts(s);
      if |s| <= 512 {
        return s;
      }
      var full := |s| / 512;
      WriteDirect(s[..full * 512], full);
      rest := s[full * 512..];
      SeekHere();
      WritingIs(rest);
    }

    lemma BodyFacts(s: seq<Byte>)
      requires BodySound(s)
      ensures |s| <= 512 ==> Writing(s) == Writing(s).Body()
      ensures |s| > 512 ==> var full := |s| / 512;
        full > 0 && full * 512 <= |s| < full * 512 + 512 && file.pos + full * 512 <= size &&
        (file.pos == 512 * si || si + full !in cacheTable) && Writing(s).Body() ==
          Progress(Overwrite(disk, file.pos, s[..full * 512]), Seeked(pos + full * 512), s[full * 512..])
    {
      hide Overwrite;
    }

    method WriteTail(s: seq<Byte>)
      requires Valid() && Placed() && pos + |s| <= size && TailSound(s)
      modifies this, file, rawcache
      ensures Valid() && pos == old(pos) + |s| && disk == old(Writing(s)).Tail().d
      ensures cacheDirties == if s == [] then old(cacheDirties) else old(DirtyAfter())
      ensures cacheIndex == if s == [] then old(cacheIndex) else old(IndexAfter())
    {
      hide Cache.Stands, Overwrite;
      if |s| > 0 {
        WriteSlot(s);
      }
    }

    /** After a read within one sector, with no seek between, a write as short goes back to where the read began. */
    method StaleWrite(at: nat, n: nat, s: seq<Byte>) returns (r: seq<Byte>)
      requires Valid() && 0 < n && at % 512 + n <= 512 && s != [] && at % 512 + |s| <= 512 && at + n + |s| <= size
      modifies this, file, rawcache
      ensures Valid() && r == old(disk)[at..at + n] && pos == at + n + |s|
      ensures disk == Overwrite(old(disk), at, s)
    {
      hide Cache.Stands, Overwrite, Fits, Written, View.Sound;
      r := ReadWithin(at, n);
      BackToStart(disk, Aimed(), at, s);
      Misses(s);
      WriteSound(s);
    }

    /** seek, and a read within one sector. */
    method ReadWithin(at: nat, n: nat) returns (r: seq<Byte>)
      requires Valid() && 0 < n && at % 512 + n <= 512 && at + n <= size
      modifies this, file, rawcache
      ensures Valid() && Placed() && r == disk[at..at + n] && pos == at + n && disk == old(disk)
      ensures si == at / 512 && so == at % 512 && !Aimed().reseek && Aimed().fill.None? && 512 * si + 512 <= size
    {
      hide Cache.Stands, Unfilled, Sectors, SectorAfter, Asked;
      Bounds();
      OneSector(at, n);
      SectorInside(at, n, size);
      WholeAsked(at, n, size);
      Seek(at, 0);
      hide Disk.Valid, Disk.Synced;
      r := Read(n);
      Rests();
    }

    lemma Rests()
      requires Valid() && Settled() && 512 * si <= size
      ensures Placed() && (si in cacheTable ==> !Aimed().reseek && Aimed().fill.None?)
    {
      Bounds();
    }

    lemma Misses(s: seq<Byte>)
      requires Fits(disk, Aimed(), s) && so + |s| <= 512 && 512 * si + 512 <= size == |disk| && pos + |s| <= size
      ensures Look().Sound(s)
    {
      hide Fits, View.Aimed;
    }
  }

  /** A cache of one slot: a byte is read, the cache flushed, and nothing read. The sector now reads as no bytes. */
  method ReadsNothing() returns (disk: Disk)
    ensures fresh(disk) && disk.disk == Zeros(512) && disk.State().Returned(0) == []
  {
    hide Sectors;
    var file := new File(Zeros(512));
    var slots := new Byte[512];
    hide Cache.Stands, Disk.Valid, Disk.Settled, Sectors, SectorAfter;
    disk := new Disk(file, slots);
    FillSlot(disk);
    NothingRead(disk);
  }

  /** The one slot is filled, and free again. */
  method FillSlot(disk: Disk)
    requires disk.Valid() && disk.size == 512 && disk.rawcache.Length == 512 && disk.pos == 0 && disk.cacheIndex == 0 &&
        disk.cacheTable == map[] && disk.disk == Zeros(512)
    modifies disk, disk.file, disk.rawcache
    ensures disk.Valid() && disk.pos == 0 && disk.cacheIndex == 512 && disk.disk == Zeros(512)
  {
    hide Cache.Stands, Disk.Settled, Sectors, SectorAfter;
    OneSector(0, 1);
    var r := disk.Read(1);
    disk.CacheFlush();
    disk.Seek(0, 0);
  }

  /** Nothing is read, into a slot past the buffer. */
  method NothingRead(disk: Disk)
    requires disk.Valid() && disk.pos == 0 && disk.cacheIndex == disk.rawcache.Length
    modifies disk, disk.file, disk.rawcache
    ensures disk.State().Returned(0) == [] && disk.disk == old(disk.disk)
  {
    hide Cache.Stands, Disk.Settled, Sectors, SectorAfter;
    var r := disk.Read(0);
  }

  /** Ten bytes read from the start of an empty disk, then a one written: it is at 0, not at 10. */
  method Misplaced() returns (disk: Disk)
    ensures fresh(disk) && disk.Valid() && disk.pos == 11 && disk.disk == Overwrite(Zeros(1024), 0, [1])
    ensures disk.disk[0] == 1 && disk.disk[10] == 0
  {
    var file := new File(Zeros(1024));
    var slots := new Byte[512];
    disk := new Disk(file, slots);
    hide Cache.Stands;
    var r := disk.StaleWrite(0, 10, [1]);
    hide Overwrite;
    OverwriteAt(Zeros(1024), 0, [1], 0);
    OverwriteAt(Zeros(1024), 0, [1], 10);
  }

  lemma WholeAsked(p: nat, n: nat, size: nat)
    requires p + n <= size
    ensures Asked(p, n, size) == n
  {
  }

  lemma SectorInside(p: nat, n: nat, size: nat)
    requires 0 < n && p + n <= size && size % 512 == 0
    ensures 512 * (p / 512) + 512 <= size
  {
  }

  lemma OneSector(p: nat, n: nat)
    requires 0 < n && p % 512 + n <= 512
    ensures Sectors(p, n) == 1 && SectorAfter(p, n) == p / 512
  {
  }

  lemma BackToStart(d: seq<Byte>, a: Aim, at: nat, s: seq<Byte>)
    requires s != [] && a.si == at / 512 && a.so == at % 512 && !a.reseek && a.fill.None? && at % 512 + |s| <= 512
    ensures a.so + |s| <= 512
    ensures Fits(d, a, s) && Written(d, a, s) == Overwrite(d, at, s)
  {
    hide Overwrite;
    assert s[..|s|] == s;
  }

  /** How many sectors a read of n bytes touches. */
  function Sectors(p: nat, n: nat): nat { CeilDiv(p + n, 512) - p / 512 }

  /** The sector a read of n bytes from p leaves as the current one: the first, or after several that behind the last. */
  function SectorAfter(p: nat, n: nat): nat {
    if Sectors(p, n) <= 1 then p / 512 else p / 512 + Sectors(p, n)
  }

  lemma Spans(pos: nat, n: int, size: nat)
    requires pos <= size && size % 512 == 0
    ensures var get := Asked(pos, n, size); var asize := (CeilDiv(pos + get, 512) - pos / 512) * 512;
      && pos + get <= size && asize == 512 * Sectors(pos, get) >= 0 && asize % 512 == 0
      && (asize == 0 <==> get == 0 && pos % 512 == 0)
      && (asize > 0 ==> pos % 512 + get <= asize && 512 * (pos / 512) + asize <= size)
      && (asize > 512 ==> get > 0 && asize < pos % 512 + get + 512)
  {
  }

  /** Where a read leaves sector and offset, against the position. */
  lemma ReadyAfter(p: nat, n: nat)
    ensures var si, so, q := SectorAfter(p, n), p % 512, p + n;
      si == q / 512 && so == q % 512 <==> n == 0 || (512 < n && p % 512 == 0 && q % 512 == 0)
    ensures SectorAfter(p, n) == if Sectors(p, n) <= 1 then p / 512 else p / 512 + Sectors(p, n)
    ensures n == 0 ==> Sectors(p, n) <= 1
  {
    var x, y := (p + n) / 512, (p + n) % 512;
    assert p + n == 512 * x + y;
    assert (p + n + 511) / 512 == if y == 0 then x else x + 1;
  }

  /** A write of m bytes after a read of n from p lands at the position exactly if the read was of nothing, or of more
      than a sector from boundary to boundary; past the cache, if the file has moved on to the position; into a slot
      that has to be made room for, if the bytes end with the sector or the old offset is right. */
  lemma HitsAfterRead(v: View, p: nat, n: nat, m: nat)
    requires v.Placed() && v.pos == p + n && v.si == SectorAfter(p, n) && v.so == p % 512 && m > 0 && v.pos + m <= |v.d|
    requires v.si in v.held || v.at == 512 * v.si
    ensures Lands(v, m) <==>
      if v.so == 0 && m > 512 then v.at == v.pos
      else if v.full && v.si !in v.held then v.pos % 512 == v.so || v.pos % 512 + m <= 512
      else n == 0 || (512 < n && p % 512 == 0 && (p + n) % 512 == 0)
  {
    hide Lands, Sectors, SectorAfter, View.Placed;
    LandsExactly(v, m);
    ReadyAfter(p, n);
    assert v.pos == 512 * (v.pos / 512) + v.pos % 512;
    if 512 * v.si + v.so == v.pos {
      assert v.pos / 512 == v.si;
    }
  }

  lemma SliceOf(d: seq<Byte>, a: nat, n: nat, o: nat, get: nat)
    requires 512 * a + n <= |d| && o + get <= n
    ensures d[512 * a..512 * a + n][o..o + get] == d[512 * a + o..512 * a + o + get]
  {
    var x, y := d[512 * a..512 * a + n][o..o + get], d[512 * a + o..512 * a + o + get];
    assert |x| == |y| == get;
    forall k | 0 <= k < get ensures x[k] == y[k] {
      assert x[k] == d[512 * a..512 * a + n][o + k] == d[512 * a + o + k];
      assert y[k] == d[512 * a + o + k];
    }
    assert x == y;
  }

  lemma WholeFile(c: Cache, d: seq<Byte>)
    requires c.Stands(d)
    ensures |d| % 512 == 0
  {
  }

  lemma IsPoked(c: Cache, e: Cache, s: nat, o: nat, b: seq<Byte>)
    requires s in c.table && e == c.(raw := Overwrite(c.raw, c.table[s] + o, b), dirties := c.dirties + {s})
    ensures e == Poked(c, s, o, b)
  {
  }

  lemma SameLength(d: seq<Byte>, p: nat, b: seq<Byte>)
    requires p + |b| <= |d|
    ensures |Overwrite(d, p, b)| == |d|
  {
  }

  lemma DropStart(c: Cache, d: seq<Byte>, a: nat)
    requires c.Stands(d)
    ensures Dropping(c, d, a, a)
  {
  }

  /** With nothing cached nothing is dropped. */
  lemma DropNone(c: Cache, s: nat)
    requires c.table == map[]
    ensures Dropped(c, s) == c
  {
  }

  lemma NoneDropped(c: Cache, d: seq<Byte>, a: nat, full: nat)
    requires c.Stands(d) && c.table == map[]
    ensures Dropping(c, d, a, a + full)
  {
  }

  lemma OverwriteNone(d: seq<Byte>, p: nat)
    ensures Overwrite(d, p, []) == d
  {
  }
}
