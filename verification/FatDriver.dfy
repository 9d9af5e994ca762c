/** The FAT driver: memoised table access, the free-run map, allocation and release of chains. */
module FatDriver {
  import opened Bytes
  import opened FlatDisk
  import opened FatTable
  import FatBytes
  import opened FatChains

  datatype Result<T> = Ok(value: T) | Err

  class Fat {
    const stream: DiskStream
    const g: Geometry
    var decoded: map<nat, nat>   // memo of table entries
    var freeMap: FreeMap         // {first cluster: length} of the free runs
    var freeClusters: int        // the counter tested before an allocation
    var uncompacted: bool

    ghost predicate TableOk()
      reads this`decoded, stream`data
    {
      && g.Fits(stream.data)
      && g.Mirrored(stream.data)
      && forall i :: i in decoded ==> 2 <= i < g.size + 2 && decoded[i] == g.Table(stream.data)[i]
    }

    ghost function T(): (t: seq<nat>)
      requires g.Fits(stream.data)
      reads stream`data
      ensures |t| == g.size + 2
    {
      g.Table(stream.data)
    }

    ghost function Free(): set<nat>
      reads this`freeMap
    {
      FreeSet(freeMap, g.size + 2)
    }

    /** The counter may lag behind the map (truncation does not raise it) but never runs ahead. */
    ghost predicate MapOk()
      reads this`freeMap, this`freeClusters, this`uncompacted
    {
      && RunsOk(freeMap, g.size + 2)
      && 0 <= freeClusters <= |Free()|
      && (!uncompacted ==> NoneAdjacent(freeMap))
    }

    ghost predicate Valid()
      reads this`decoded, this`freeMap, this`freeClusters, this`uncompacted, stream`data
    {
      && TableOk()
      && MapOk()
      && Free() == ZeroSet(T())
    }

    /**
     * __init__: the second copy is placed from the cluster count, then free space is scanned in the first. What the
     * second holds is not looked at.
     */
    constructor (stream: DiskStream, offset: nat, clusters: nat, bits: nat, sector: nat)
      requires sector > 0
      requires var g := Opened(offset, clusters, bits, sector);
        g.Fits(stream.data) && stream.pos <= |stream.data|
      modifies stream`pos, stream`ready
      ensures this.stream == stream && g == Opened(offset, clusters, bits, sector)
      ensures MapOk() && freeClusters == |Free()| && uncompacted && Free() == NotBusy(g, stream.data)
      ensures TableOk() <==> g.Mirrored(stream.data)
      ensures g.ScanSeesTruth(stream.data) ==> Free() == ZeroSet(T()) && (Valid() <==> g.Mirrored(stream.data))
      ensures stream.pos == old(stream.pos)
    {
      this.stream := stream;
      g := Opened(offset, clusters, bits, sector);
      decoded := map[];
      freeMap := map[];
      freeClusters := 0;
      uncompacted := true;
      new;
      MapFreeSpace();
      ScannedFree(g, stream.data, Free());
    }

    /** map_free_space: pages through the first copy, one run per stretch of free slots in a page. */
    method MapFreeSpace()
      requires g.Fits(stream.data) && stream.pos <= |stream.data|
      modifies this`freeMap, this`freeClusters, stream`pos, stream`ready
      ensures RunsOk(freeMap, g.size + 2) && freeClusters == |Free()|
      ensures Free() == NotBusy(g, stream.data)
      ensures stream.pos == old(stream.pos)
    {
      hide Geometry.Mirrored, Geometry.Table, RunsOk, NoneAdjacent, FreeSet, Geometry.SlotsIn, Geometry.DataLen;
      var startpos := stream.pos;
      freeMap := map[];
      var total := 0;
      var head := g.offset + g.HeadLen();
      var end := head + g.DataLen();
      var page := if g.bits == 32 then 0x40_0000 else g.offset2 - head;
      var i := head;
      ghost var free := NotBusy(g, stream.data);
      StartScan(g, free);
      stream.Seek(i);
      while i < end
        invariant head <= i <= end && stream.pos == i
        invariant PageStart(g, i - head)
        invariant RunsOk(freeMap, 2 + g.SlotsIn(i - head))
        invariant FreeSet(freeMap, g.size + 2) == Below(free, 2 + g.SlotsIn(i - head))
        invariant total == |FreeSet(freeMap, g.size + 2)|
      {
        var n, found := ReadPage(i - head, Min(page, end - i), free);
        total := total + found;
        i := i + n;
      }
      stream.Seek(startpos);
      freeClusters := total;
      assert Below(free, g.size + 2) == free;
    }

    /** One round of the page loop: read a page and scan it. */
    method ReadPage(at: nat, size: nat, ghost free: set<nat>) returns (n: nat, found: nat)
      requires g.Fits(stream.data) && PageStart(g, at) && at < g.DataLen()
      requires stream.pos == g.offset + g.HeadLen() + at
      requires size == PageBytes(g, at)
      requires free == NotBusy(g, stream.data)
      requires RunsOk(freeMap, 2 + g.SlotsIn(at))
      requires FreeSet(freeMap, g.size + 2) == Below(free, 2 + g.SlotsIn(at))
      modifies this`freeMap, stream`pos, stream`ready
      ensures n > 0 && stream.pos == old(stream.pos) + n && PageStart(g, at + n)
      ensures RunsOk(freeMap, 2 + g.SlotsIn(at + n))
      ensures FreeSet(freeMap, g.size + 2) == Below(free, 2 + g.SlotsIn(at + n))
      ensures |FreeSet(freeMap, g.size + 2)| == |old(FreeSet(freeMap, g.size + 2))| + found
    {
      hide Geometry.Mirrored, NotBusy, IsPage, RunsOk, FreeSet, Below, PageStart, Geometry.SlotsIn, PageBytes;
      PageSize(g, at, size);
      PageInside(g, stream.data, at, size);
      hide Geometry.HeadLen, Geometry.DataLen, Geometry.Fits;
      var s := stream.Read(size);
      PageOf(g, stream.data, at, s, size);
      found := ScanPage(s, 2 + g.SlotsIn(at), free);
      n := |s|;
    }

    /** The two nested loops over one page; base is the cluster of its first slot. */
    method ScanPage(s: seq<Byte>, base: nat, ghost free: set<nat>) returns (found: nat)
      requires g.Valid() && 2 <= base && base + g.SlotsIn(|s|) <= g.size + 2
      requires IsPage(g, free, s, base)
      requires RunsOk(freeMap, base)
      requires FreeSet(freeMap, g.size + 2) == Below(free, base)
      modifies this`freeMap
      ensures RunsOk(freeMap, base + g.SlotsIn(|s|))
      ensures FreeSet(freeMap, g.size + 2) == Below(free, base + g.SlotsIn(|s|))
      ensures |FreeSet(freeMap, g.size + 2)| == |old(FreeSet(freeMap, g.size + 2))| + found
    {
      hide Below, RunsOk, FreeSet;
      var slots := g.SlotsIn(|s|);
      var j := 0;
      found := 0;
      while j < slots
        invariant j <= slots
        invariant RunsOk(freeMap, base + j)
        invariant FreeSet(freeMap, g.size + 2) == Below(free, base + j)
        invariant |FreeSet(freeMap, g.size + 2)| == |old(FreeSet(freeMap, g.size + 2))| + found
        decreases slots - j
      {
        var first, run := -1, -1;
        ghost var from := base + j;
        while j < slots
          invariant from - base <= j <= slots
          invariant first < 0 ==> run == -1
          invariant first >= 0 ==> run > 0 && first + run == base + j
          invariant Stretch(free, from, if first < 0 then base + j else first, base + j)
          modifies {}
          decreases slots - j
        {
          g.PageSlot(|s|, j);
          SlotVerdict(g, free, s, base, j);
          if g.BusySlot(s, j) {
            j := j + 1;
            if run > 0 {
              break;
            }
            continue;
          }
          if first < 0 {
            first := base + j;
            run := 0;
          }
          run := run + 1;
          j := j + 1;
        }
        if first < 0 {
          ScannedNothing(free, from, base + j, freeMap);
          continue;
        }
        ScannedRun(free, from, first, run, base + j, freeMap, g.size + 2);
        found := found + run;
        freeMap := freeMap[first := run];
      }
    }

    /** __getitem__: an unusable index reads as the end mark; zero is never served from the memo. */
    method Get(index: nat) returns (v: nat)
      requires TableOk()
      modifies this`decoded, stream`pos, stream`ready
      ensures TableOk()
      ensures v == if 2 <= index < g.size + 2 then T()[index] else g.Last()
      ensures 2 <= index < g.size + 2 ==> FatBytes.Holds(g.bits, stream.data, g.offset, index, v)
    {
      hide FatBytes.Holds, Geometry.Table;
      if 2 <= index < g.size + 2 {
        FatBytes.EntryBytes(g, stream.data, index);
      }
      if !(2 <= index <= g.RealLast()) {
        return g.Last();
      }
      if index in decoded && decoded[index] != 0 {
        return decoded[index];
      }
      v := Fetch(index);
      decoded := decoded[index := v];
    }

    /** Reads a slot of the first copy. */
    method Fetch(index: nat) returns (v: nat)
      requires TableOk() && index < g.size + 2
      modifies stream`pos, stream`ready
      ensures v == T()[index]
    {
      hide Geometry.Decode, Geometry.Entry, Geometry.Slots, Geometry.Mirrored;
      g.DecodeEntry(stream.data, index);
      g.TableAt(stream.data, index);
      stream.Seek(g.offset + g.Disp(index));
      var s := stream.Read(g.SlotSize());
      v := g.Decode(index, s);
    }

    /** __setitem__: ignores an unusable index or value, else stores in memo and both copies. */
    method Set(index: nat, value: nat)
      requires TableOk()
      requires value < g.Limit()
      modifies this`decoded, stream
      ensures TableOk() && g.SameOutside(old(stream.data), stream.data)
      ensures T() == if 2 <= index < g.size + 2 && (value <= g.size + 1 || value >= g.Reserved())
                     then old(T())[index := value] else old(T())
      ensures 2 <= index < g.size + 2 && (value <= g.size + 1 || value >= g.Reserved()) ==>
        FatBytes.Holds(g.bits, stream.data, g.offset, index, value) &&
        FatBytes.Holds(g.bits, stream.data, g.offset2, index, value)
    {
      hide FatBytes.Holds;
      hide Geometry.Mirrored, Geometry.NewSlot, Geometry.Disp, ReadAt, Geometry.Table;
      if !(2 <= index <= g.RealLast()) {
        return;
      }
      if !(value <= g.RealLast() || value >= g.Reserved()) {
        return;
      }
      decoded := decoded[index := value];
      ghost var was := stream.data;
      g.SlotInside(index);
      var dsp := g.Disp(index);
      var s := [];
      if g.bits == 12 {
        stream.Seek(g.offset + dsp);
        s := stream.Read(g.SlotSize());
      }
      g.NewSlotBytes(was, index, value, s);
      WriteBoth(dsp, g.NewSlot(index, s, value));
      g.SetEntry(was, index, value, stream.data);
      FatBytes.EntryBytes(g, stream.data, index);
      FatBytes.CopyBytes(g, stream.data, index);
    }

    /** The two writes every store ends with. */
    method WriteBoth(dsp: nat, bytes: seq<Byte>)
      requires g.Fits(stream.data) && dsp + |bytes| <= g.ByteLen()
      modifies stream
      ensures g.Both(old(stream.data), dsp, bytes, stream.data)
      ensures g.Fits(stream.data) && g.SameOutside(old(stream.data), stream.data)
    {
      hide Overwrite, Geometry.Both, Geometry.SameOutside, Geometry.ByteLen;
      ghost var d := stream.data;
      g.BothWrites(d, dsp, bytes);
      stream.Seek(g.offset + dsp);
      stream.Write(bytes);
      stream.Seek(g.offset2 + dsp);
      stream.Write(bytes);
      g.BothOutside(d, dsp, bytes, stream.data);
    }

    /** map_compact: merges touching runs until a whole pass changes nothing. */
    method MapCompact()
      requires MapOk()
      modifies this`freeMap, this`uncompacted
      ensures MapOk() && Free() == old(Free())
      ensures NoneAdjacent(freeMap) && !uncompacted
    {
      if !uncompacted {
        return;
      }
      while true
        invariant RunsOk(freeMap, g.size + 2) && Free() == old(Free())
        decreases |freeMap|
      {
        var d := CompactPass();
        if freeMap != d {
          freeMap := d;
          continue;
        }
        break;
      }
      uncompacted := false;
    }

    /** One pass: extend every run over the runs that follow it directly. */
    method CompactPass() returns (d: FreeMap)
      requires RunsOk(freeMap, g.size + 2)
      ensures RunsOk(d, g.size + 2) && FreeSet(d, g.size + 2) == Free()
      ensures NoneAdjacent(d) && (d == freeMap || |d| < |freeMap|)
    {
      hide Compacting, Extend;
      d := freeMap;
      var todo := freeMap.Keys;
      NothingVisited(freeMap, g.size + 2);
      while todo != {}
        invariant todo <= freeMap.Keys && Compacting(freeMap, d, todo, g.size + 2)
        decreases todo
      {
        var k :| k in todo;
        VisitReady(freeMap, d, todo, g.size + 2, k);
        VisitRun(freeMap, d, todo, g.size + 2, k);
        d := MergeOnto(d, k, freeMap[k]);
        todo := todo - {k};
      }
      AllVisited(freeMap, d, g.size + 2);
    }

    /** The inner loop of a pass. */
    method MergeOnto(d0: FreeMap, k: nat, v0: nat) returns (d: FreeMap)
      requires k in d0 ==> d0[k] == v0
      requires k !in d0 ==> k + v0 !in d0
      requires forall j :: j in d0 ==> d0[j] > 0
      ensures d == Extend(d0, k, v0)
    {
      d := d0;
      var v := v0;
      while k + v in d
        invariant k in d ==> d[k] == v
        invariant k !in d ==> k + v !in d
        invariant forall j :: j in d ==> d[j] > 0
        invariant Extend(d, k, v) == Extend(d0, k, v0)
        decreases |d|
      {
        ghost var was := d;
        var v1 := d[k + v];
        d := d[k := v + v1] - {k + v};
        v := v + v1;
        MergeSize(was, k, d);
      }
    }

    /** findfree: takes up to count clusters from some mapped run; under the counter there is one. */
    method FindFree(count: nat) returns (i: int, n: int)
      requires MapOk() && count <= freeClusters && count > 0
      modifies this`freeMap, this`freeClusters
      ensures MapOk()
      ensures 0 < n <= count && freeClusters == old(freeClusters) - n
      ensures 2 <= i && i + n <= g.size + 2
      ensures Span(i, n) <= old(Free()) && Free() == old(Free()) - Span(i, n)
    {
      hide FreeSet, Span;
      NonEmpty(freeMap, g.size + 2);
      var s: nat :| s in freeMap;
      assert 2 <= s && 0 < freeMap[s] && s + freeMap[s] <= g.size + 2;
      var m := freeMap[s];
      ghost var was := freeMap;
      freeMap := freeMap - {s};
      if m - count > 0 {
        freeMap := freeMap[s + count := m - count];
      }
      freeClusters := freeClusters - Min(m, count);
      i, n := s, Min(m, count);
      TakeRun(was, g.size + 2, s, n, freeMap);
      assert !uncompacted ==> NoneAdjacent(freeMap) by {
        if !uncompacted {
          TakeKeepsApart(was, g.size + 2, s, n, freeMap);
        }
      }
      hide RunsOk, NoneAdjacent;
    }

    /** mark_run: links the run start..start+count-1, or clears it and gives it back to the map. */
    method MarkRun(start: nat, count: nat, clear: bool)
      requires TableOk() && RunsOk(freeMap, g.size + 2)
      requires count > 0 && 2 <= start < g.size + 2 ==> start + count <= g.size + 2
      modifies this`decoded, this`freeMap, this`uncompacted, stream
      ensures TableOk() && g.SameOutside(old(stream.data), stream.data)
      ensures count == 0 || !(2 <= start < g.size + 2) ==>
        T() == old(T()) && freeMap == old(freeMap) && uncompacted == old(uncompacted)
      ensures count > 0 && 2 <= start < g.size + 2 ==>
        && (forall c: nat :: c < g.size + 2 && !InSpan(start, count, c) ==> T()[c] == old(T())[c])
        && (clear ==> forall c: nat :: InSpan(start, count, c) ==> T()[c] == 0)
        && (!clear ==> forall c :: start <= c < start + count - 1 ==> T()[c] == c + 1)
        && (!clear && g.bits != 12 ==> T()[start + count - 1] == g.Last())
      ensures count > 0 && 2 <= start < g.size + 2 ==>
        && freeMap == (if clear then old(freeMap)[start := count] else old(freeMap))
        && uncompacted == (clear || old(uncompacted))
      ensures forall c: nat {:trigger InSpan(start, count, c)} :: InSpan(start, count, c) && 2 <= start < g.size + 2 ==>
        FatBytes.Holds(g.bits, stream.data, g.offset, c, T()[c]) &&
        FatBytes.Holds(g.bits, stream.data, g.offset2, c, T()[c])
    {
      hide FatBytes.Holds, Geometry.Table, Geometry.Mirrored, Geometry.SameOutside;
      MarkSpan(start, count, clear);
      forall c: nat {:trigger InSpan(start, count, c)} | InSpan(start, count, c) && 2 <= start < g.size + 2
        ensures FatBytes.Holds(g.bits, stream.data, g.offset, c, T()[c])
        ensures FatBytes.Holds(g.bits, stream.data, g.offset2, c, T()[c])
      {
        FatBytes.EntryBytes(g, stream.data, c);
        FatBytes.CopyBytes(g, stream.data, c);
      }
    }

    /** mark_run, as entries. */
    method MarkSpan(start: nat, count: nat, clear: bool)
      requires TableOk() && RunsOk(freeMap, g.size + 2)
      requires count > 0 && 2 <= start < g.size + 2 ==> start + count <= g.size + 2
      modifies this`decoded, this`freeMap, this`uncompacted, stream
      ensures TableOk() && g.SameOutside(old(stream.data), stream.data)
      ensures count == 0 || !(2 <= start < g.size + 2) ==>
        T() == old(T()) && freeMap == old(freeMap) && uncompacted == old(uncompacted)
      ensures count > 0 && 2 <= start < g.size + 2 ==>
        && (forall c: nat :: c < g.size + 2 && !InSpan(start, count, c) ==> T()[c] == old(T())[c])
        && (clear ==> forall c: nat :: InSpan(start, count, c) ==> T()[c] == 0)
        && (!clear ==> forall c :: start <= c < start + count - 1 ==> T()[c] == c + 1)
        && (!clear && g.bits != 12 ==> T()[start + count - 1] == g.Last())
      ensures count > 0 && 2 <= start < g.size + 2 ==>
        && freeMap == (if clear then old(freeMap)[start := count] else old(freeMap))
        && uncompacted == (clear || old(uncompacted))
    {
      if count == 0 {
        return;
      }
      if start < 2 || start > g.RealLast() {
        return;
      }
      if g.bits == 12 {
        if clear {
          uncompacted := true;
          freeMap := freeMap[start := count];
        }
        MarkSlots(start, count, clear);
      } else {
        MarkWide(start, count, clear);
        if clear {
          uncompacted := true;
          freeMap := freeMap[start := count];
        }
      }
    }

    /** 12-bit tables are marked slot by slot. */
    method MarkSlots(start: nat, count: nat, clear: bool)
      requires TableOk() && 2 <= start && start + count <= g.size + 2
      modifies this`decoded, stream
      ensures TableOk() && g.SameOutside(old(stream.data), stream.data)
      ensures forall c: nat :: c < g.size + 2 && !InSpan(start, count, c) ==> T()[c] == old(T())[c]
      ensures clear ==> forall c: nat :: InSpan(start, count, c) ==> T()[c] == 0
      ensures !clear ==> forall c :: start <= c < start + count - 1 ==> T()[c] == c + 1
    {
      var at, left := start, count;
      while left > 0
        invariant 0 <= left <= count && at + left == start + count
        invariant TableOk() && g.SameOutside(old(stream.data), stream.data)
        invariant forall c :: 0 <= c < g.size + 2 && !(start <= c < at) ==> T()[c] == old(T())[c]
        invariant forall c :: start <= c < at ==>
          if clear then T()[c] == 0 else c < start + count - 1 ==> T()[c] == c + 1
      {
        Set(at, if clear then 0 else at + 1);
        at := at + 1;
        left := left - 1;
      }
    }

    /** 16 and 32 bit tables are marked with one write per copy. */
    method MarkWide(start: nat, count: nat, clear: bool)
      requires TableOk() && g.bits != 12 && 2 <= start && 0 < count && start + count <= g.size + 2
      modifies this`decoded, stream
      ensures TableOk() && g.SameOutside(old(stream.data), stream.data)
      ensures forall c: nat :: c < g.size + 2 && !InSpan(start, count, c) ==> T()[c] == old(T())[c]
      ensures clear ==> forall c: nat :: InSpan(start, count, c) ==> T()[c] == 0
      ensures !clear ==> forall c :: start <= c < start + count - 1 ==> T()[c] == c + 1
      ensures !clear ==> T()[start + count - 1] == g.Last()
    {
      var vs := RunValues(start, count, clear, g.Last());
      WriteRun(start, vs);
    }

    /** Stores consecutive slots in the memo and, with one write each, in both copies. */
    method WriteRun(start: nat, vs: seq<nat>)
      requires TableOk() && g.bits != 12 && 2 <= start && vs != [] && start + |vs| <= g.size + 2
      requires forall k :: 0 <= k < |vs| ==> vs[k] < g.Limit()
      modifies this`decoded, stream
      ensures TableOk() && g.SameOutside(old(stream.data), stream.data)
      ensures forall j :: 0 <= j < g.size + 2 ==>
        T()[j] == if start <= j < start + |vs| then vs[j - start] else old(T())[j]
    {
      ghost var was := stream.data;
      ghost var memo := decoded;
      decoded := decoded + map c | c in Interval(start, |vs|) :: vs[c - start];
      g.SlotInside(start + |vs| - 1);
      WriteBoth(g.Disp(start), g.PackRun(vs));
      g.SetRun(was, start, vs, stream.data);
      MemoRun(memo, g.Table(was), T(), start, vs, decoded);
    }

    /**
     * alloc: links count free clusters behind the chain whose runs are given, or fails when the counter says there are
     * not enough. Behind a run list that ends outside the table nothing is linked.
     */
    method Alloc(runs: seq<Run>, count: nat) returns (r: Result<nat>, runs': seq<Run>, ghost added: seq<nat>)
      requires Valid() && count > 0 && Growable(T(), runs, g.Last())
      modifies this`decoded, this`freeMap, this`freeClusters, this`uncompacted, stream
      ensures Valid() && g.SameOutside(old(stream.data), stream.data)
      ensures r.Err? <==> old(freeClusters) < count
      ensures r.Err? ==> T() == old(T()) && runs' == runs && freeClusters == old(freeClusters)
      ensures r.Ok? ==>
        && |added| == count && r.value == added[count - 1]
        && Grown(old(T()), T(), Behind(runs, |old(T())|), added, g.Last())
        && Positive(runs') && Flatten(runs') == Flatten(runs) + added
        && freeClusters == old(freeClusters) - count
    {
      assert g.SameOutside(stream.data, stream.data);
      hide Allocating, Grown, IsChain, Geometry.SameOutside, Geometry.Mirrored, Geometry.Table, Flatten, Lost;
      hide ZeroSet, Strays, Growable, NoneAdjacent, RunsOk, FreeSet;
      MapCompact();
      if freeClusters < count {
        return Err, runs, [];
      }
      ghost var t := T();
      ghost var cs := Behind(runs, |t|);
      ghost var parts := Split(t, runs, g.Last());
      ghost var lost, rest := parts.0, parts.1;
      NothingGrown(t, cs, g.Last(), Free(), rest);
      var last;
      runs', last, added, rest := AllocAll(runs, count, t, cs, lost, rest);
      Joined(t, runs, lost, rest, cs, added);
      r := Ok(last);
    }

    /** The allocation loop, and the end mark stored behind it. */
    method AllocAll(runs: seq<Run>, count: nat, ghost t: seq<nat>, ghost cs: seq<nat>, ghost lost: seq<Run>,
                    ghost rest: seq<Run>)
      returns (runs': seq<Run>, last: nat, ghost added: seq<nat>, ghost rest': seq<Run>)
      requires TableOk() && MapOk() && 0 < count <= freeClusters
      requires (cs == [] || IsChain(t, cs, g.Last())) && runs == lost + rest && Lost(lost, t) && (lost == [] || cs == [])
      requires Allocating(t, T(), cs, [], Free(), rest)
      modifies this`decoded, this`freeMap, this`freeClusters, this`uncompacted, stream
      ensures Valid() && g.SameOutside(old(stream.data), stream.data)
      ensures freeClusters == old(freeClusters) - count
      ensures |added| == count && last == added[count - 1] && runs' == lost + rest'
      ensures Grown(t, T(), cs, added, g.Last()) && Positive(rest') && Flatten(rest') == cs + added
    {
      hide Allocating, Grown, IsChain, Geometry.SameOutside, Geometry.Mirrored, Geometry.Table, Flatten, Lost;
      hide ZeroSet, Strays, NoneAdjacent, RunsOk, FreeSet, Positive;
      SameLength(t, T(), cs, [], Free(), rest);
      runs', last, added, rest' := AllocLoop(runs, count, t, cs, lost, rest);
      ghost var open := T();
      ghost var beforeLast := stream.data;
      Set(last, g.Last());
      g.SameOutsideTrans(old(stream.data), beforeLast, stream.data);
      CloseGrown(t, open, T(), cs, added, g.Last(), Free(), rest');
    }

    /** The allocation loop. */
    method AllocLoop(runs: seq<Run>, count: nat, ghost t: seq<nat>, ghost cs: seq<nat>, ghost lost: seq<Run>,
                     ghost rest: seq<Run>)
      returns (runs': seq<Run>, last: nat, ghost added: seq<nat>, ghost rest': seq<Run>)
      requires TableOk() && MapOk() && 0 < count <= freeClusters
      requires (cs == [] || IsChain(t, cs, g.Last())) && runs == lost + rest && Lost(lost, t) && (lost == [] || cs == [])
      requires Allocating(t, T(), cs, [], Free(), rest)
      modifies this`decoded, this`freeMap, this`freeClusters, this`uncompacted, stream
      ensures TableOk() && MapOk() && g.SameOutside(old(stream.data), stream.data)
      ensures freeClusters == old(freeClusters) - count
      ensures |added| == count && last == added[count - 1] && runs' == lost + rest'
      ensures Allocating(t, T(), cs, added, Free(), rest')
    {
      assert g.SameOutside(stream.data, stream.data);
      hide Allocating, Free, Geometry.SameOutside, Geometry.Mirrored, Geometry.Table, RunsOk, NoneAdjacent;
      hide IsChain, Lost;
      added := [];
      runs', rest' := runs, rest;
      last := 0;
      var left := count;
      while left > 0
        invariant TableOk() && MapOk() && g.SameOutside(old(stream.data), stream.data)
        invariant 0 <= left <= count && left + |added| == count
        invariant freeClusters == old(freeClusters) - |added|
        invariant Allocating(t, T(), cs, added, Free(), rest') && runs' == lost + rest'
        invariant added != [] ==> last == added[|added| - 1]
        decreases left
      {
        var i, n;
        ghost var was := stream.data;
        i, n, runs', rest' := AllocRun(runs', left, t, cs, added, lost, rest');
        g.SameOutsideTrans(old(stream.data), was, stream.data);
        added := added + Interval(i, n);
        last := i + n - 1;
        left := left - n;
      }
    }

    /** One round of the allocation loop: take a run, mark it, link it, record it. */
    method AllocRun(runs: seq<Run>, left: nat, ghost t: seq<nat>, ghost cs: seq<nat>, ghost added: seq<nat>,
                    ghost lost: seq<Run>, ghost rest: seq<Run>)
      returns (i: nat, n: nat, runs': seq<Run>, ghost rest': seq<Run>)
      requires TableOk() && MapOk() && 0 < left <= freeClusters
      requires (cs == [] || IsChain(t, cs, g.Last())) && runs == lost + rest && Lost(lost, t) && (lost == [] || cs == [])
      requires Allocating(t, T(), cs, added, Free(), rest)
      modifies this`decoded, this`freeMap, this`freeClusters, this`uncompacted, stream
      ensures TableOk() && MapOk() && g.SameOutside(old(stream.data), stream.data)
      ensures 0 < n <= left && freeClusters == old(freeClusters) - n
      ensures Allocating(t, T(), cs, added + Interval(i, n), Free(), rest') && runs' == lost + rest'
    {
      hide Allocating, RunsOk, NoneAdjacent, IsChain, Flatten, FreeSet, Record, Interval, Span, InSpan, Lost;
      hide Geometry.Mirrored, Geometry.Table, Geometry.SameOutside, Strays, ZeroSet, EndOfRuns;
      ghost var t0 := T();
      ghost var free := Free();
      SameLength(t, t0, cs, added, free, rest);
      i, n := FindFree(left);
      LastUsable(t, t0, cs, added, free, lost, rest);
      Behindmost(t, t0, cs, added, free, lost, rest, i, n);
      hide Marked;
      MarkAndLink(runs, i, n);
      MarkedBehind(t0, T(), lost, rest, i, n);
      runs' := Record(runs, i, n);
      rest' := Record(rest, i, n);
      AllocStep(t, t0, cs, added, g.Last(), free, rest, i, n, T());
    }

    /** Marks the run [i, i+n) and makes the last known cluster point to it, if it is one of the table's. */
    method MarkAndLink(runs: seq<Run>, i: nat, n: nat)
      requires TableOk() && RunsOk(freeMap, g.size + 2)
      requires 2 <= i && 0 < n && i + n <= g.size + 2
      requires runs != [] ==> 3 <= EndOfRuns(runs)
      modifies this`decoded, this`freeMap, this`uncompacted, stream
      ensures TableOk() && g.SameOutside(old(stream.data), stream.data)
      ensures freeMap == old(freeMap) && uncompacted == old(uncompacted)
      ensures Marked(old(T()), T(), runs, i, n)
    {
      hide Geometry.SameOutside, Geometry.Mirrored, Geometry.Table;
      MarkRun(i, n, false);
      ghost var t1 := T();
      assert MarkedRun(old(T()), t1, i, n);
      ghost var marked := stream.data;
      if runs != [] {
        var l := runs[|runs| - 1];
        Set(l.start + l.len - 1, i);
        g.SameOutsideTrans(old(stream.data), marked, stream.data);
      }
      assert TailTo(t1, T(), runs, i);
    }

    /**
     * free: zeroes a chain run by run and gives every run back to the map. A mark below the one this driver knows, any
     * from low on, is taken for one more run: it is counted and mapped, though there are no such clusters.
     */
    method FreeChain(start: nat, ghost cs: seq<nat>, ghost low: nat)
      requires Valid() && g.size + 2 < low
      requires 2 <= start < g.size + 2 ==> IsChain(T(), cs, low) && cs[0] == start
      modifies this`decoded, this`freeMap, this`freeClusters, this`uncompacted, stream
      ensures TableOk() && g.SameOutside(old(stream.data), stream.data)
      ensures !(2 <= start < g.size + 2) ==> Valid() && T() == old(T()) && freeClusters == old(freeClusters)
      ensures 2 <= start < g.size + 2 ==>
        && Released(old(T()), T(), cs)
        && FreedTo(EndOf(old(T()), cs, low), old(freeClusters) + |cs|)
    {
      hide RunsOk, ZeroSet;
      g.SameOutsideSelf(stream.data);
      if start < 2 || start > g.RealLast() {
        return;
      }
      uncompacted := true;
      ghost var t := T();
      NothingReleased(t, cs, low);
      ghost var k := 0;
      var at := start;
      hide Releasing, Released, Geometry.SameOutside, Geometry.Mirrored, Geometry.Table, FreedTo;
      while true
        invariant Valid() && g.SameOutside(old(stream.data), stream.data) && Releasing(t, T(), cs, low, k)
        invariant if k < |cs| then at == cs[k] else at == EndOf(t, cs, low) && !IsLast(at, g.Last())
        invariant freeClusters == old(freeClusters) + k && uncompacted
        decreases |cs| - k
      {
        ghost var was := stream.data;
        var length, next := FreeRun(at, t, cs, low, k);
        g.SameOutsideTrans(old(stream.data), was, stream.data);
        k := Min(k + length, |cs|);
        at := next;
        if IsLast(next, g.Last()) {
          break;
        }
      }
      AllReleased(t, T(), cs, low);
    }

    /** The counter, and the map: as it should be, or with the run a mark was taken for. */
    ghost predicate FreedTo(mark: nat, n: int)
      reads this`decoded, this`freeMap, this`freeClusters, this`uncompacted, stream`data
    {
      if IsLast(mark, g.Last()) then Valid() && freeClusters == n
      else
        && TableOk() && mark in freeMap && freeMap[mark] == StrayLen(mark, g.Last())
        && RunsOk(freeMap - {mark}, g.size + 2) && FreeSet(freeMap - {mark}, g.size + 2) == ZeroSet(T())
        && freeClusters == n + freeMap[mark]
    }

    /** One round of free: measure the run at start, clear it, count it. */
    method FreeRun(start: nat, ghost t: seq<nat>, ghost cs: seq<nat>, ghost low: nat, ghost k: nat)
      returns (length: nat, next: nat)
      requires Valid() && uncompacted && |t| == g.size + 2 < low
      requires IsChain(t, cs, low) && k <= |cs| && Releasing(t, T(), cs, low, k)
      requires if k < |cs| then start == cs[k] else start == EndOf(t, cs, low) && !IsLast(start, g.Last())
      modifies this`decoded, this`freeMap, this`freeClusters, this`uncompacted, stream
      ensures TableOk() && g.SameOutside(old(stream.data), stream.data) && length > 0
      ensures k < |cs| ==> Valid() && uncompacted && k + length <= |cs| && Releasing(t, T(), cs, low, k + length)
      ensures k < |cs| ==> freeClusters == old(freeClusters) + length
      ensures k < |cs| ==> if k + length == |cs| then next == EndOf(t, cs, low) else next == cs[k + length] < g.size + 2
      ensures k == |cs| ==> T() == old(T()) && IsLast(next, g.Last()) && FreedTo(start, old(freeClusters))
    {
      assert g.SameOutside(stream.data, stream.data);
      hide Geometry.Mirrored, Geometry.Table, Geometry.SameOutside, Releasing, IsChain, Interval, Cleared;
      hide RunsOk, FreeSet, ZeroSet, NoneAdjacent, Follows, FreedTo;
      ghost var t0 := T();
      MarkBeyond(t, cs, low);
      if k < |cs| {
        RestIsChain(t, t0, cs, low, k);
      }
      length, next := CountRun(start, cs[k..], low);
      if start <= g.RealLast() {
        NextOf(t0, cs, low, k, length, next);
        ClearAndCount(start, length, t, cs, low, k);
      } else {
        CountStray(start, length);
      }
    }

    /** A measured run is cleared and counted. */
    method ClearAndCount(start: nat, length: nat, ghost t: seq<nat>, ghost cs: seq<nat>, ghost low: nat, ghost k: nat)
      requires Valid() && uncompacted && |t| == g.size + 2 < low
      requires IsChain(t, cs, low) && k < |cs| && Releasing(t, T(), cs, low, k) && start == cs[k]
      requires 0 < length <= |cs| - k && cs[k..][..length] == Interval(start, length)
      modifies this`decoded, this`freeMap, this`freeClusters, this`uncompacted, stream
      ensures Valid() && uncompacted && g.SameOutside(old(stream.data), stream.data)
      ensures Releasing(t, T(), cs, low, k + length) && freeClusters == old(freeClusters) + length
    {
      hide Geometry.Mirrored, Geometry.Table, Geometry.SameOutside, Releasing, IsChain, Interval, Cleared;
      hide RunsOk, FreeSet, ZeroSet, NoneAdjacent;
      ghost var t0 := T();
      RestIsChain(t, t0, cs, low, k);
      RunStart(t, t0, cs, low, k, start, length);
      ClearRun(start, length);
      ReleaseStep(t, t0, cs, low, k, start, length, T());
      CountFreed(start, length);
    }

    /** mark_run does nothing for a run outside the table; free counts it, and enters it. */
    method CountStray(start: nat, length: nat)
      requires Valid() && start >= g.size + 2 && length == StrayLen(start, g.Last()) && !IsLast(start, g.Last())
      modifies this`freeClusters, this`freeMap
      ensures FreedTo(start, old(freeClusters))
    {
      ghost var m := freeMap;
      freeClusters := freeClusters + length;
      freeMap := freeMap[start := length];
      assert start !in m;
      assert freeMap - {start} == m;
    }

    /** free counts the run and enters it once more, which changes nothing. */
    method CountFreed(start: nat, length: nat)
      requires MapOk() && start in freeMap && freeMap[start] == length
      requires freeClusters + length <= |Free()|
      modifies this`freeClusters, this`freeMap
      ensures MapOk() && freeClusters == old(freeClusters) + length && freeMap == old(freeMap)
    {
      freeClusters := freeClusters + length;
      assert freeMap[start := length] == freeMap;
      freeMap := freeMap[start := length];
    }

    /** Clears a run in use and makes cluster c, in use before it, the last of its chain. */
    method ClearAndEnd(start: nat, count: nat, c: nat)
      requires Valid() && 2 <= start && 0 < count && start + count <= g.size + 2
      requires forall x: nat :: InSpan(start, count, x) ==> x !in ZeroSet(T())
      requires 2 <= c < g.size + 2 && !InSpan(start, count, c) && c !in ZeroSet(T())
      modifies this`decoded, this`freeMap, this`uncompacted, stream
      ensures Valid() && g.SameOutside(old(stream.data), stream.data)
      ensures ClearedTo(old(T()), T(), start, count, c, g.Last())
      ensures freeClusters == old(freeClusters) && |Free()| == |old(Free())| + count
    {
      hide Geometry.Mirrored, Geometry.Table, Geometry.SameOutside, RunsOk, FreeSet, NoneAdjacent;
      ClearRun(start, count);
      ghost var t1 := T();
      ghost var d := stream.data;
      Set(c, g.Last());
      assert ZeroSet(T()) == ZeroSet(t1);
      g.SameOutsideTrans(old(stream.data), d, stream.data);
    }

    /** mark_run(start, count, True) on a run in use: its clusters become free, uncounted. */
    method ClearRun(start: nat, count: nat)
      requires Valid() && 2 <= start && 0 < count && start + count <= g.size + 2
      requires forall c: nat :: InSpan(start, count, c) ==> c !in ZeroSet(T())
      modifies this`decoded, this`freeMap, this`uncompacted, stream
      ensures Valid() && uncompacted && g.SameOutside(old(stream.data), stream.data)
      ensures Cleared(old(T()), T(), start, count)
      ensures start in freeMap && freeMap[start] == count && freeClusters == old(freeClusters)
      ensures |Free()| == |old(Free())| + count
    {
      hide Geometry.Mirrored, Geometry.Table, Geometry.SameOutside, FatBytes.Holds, Geometry.Fits;
      ghost var t0 := T();
      ghost var m := freeMap;
      MarkRun(start, count, true);
      ReleaseSpace(m, t0, start, count, T());
      hide RunsOk, FreeSet;
    }

    /**
     * count: follows a chain to its end. A mark below the one this driver knows, any from low on, is taken for one more
     * cluster.
     */
    method Count(startcluster: nat, ghost cs: seq<nat>, ghost low: nat) returns (n: nat, end: nat)
      requires TableOk() && g.size + 2 <= low && IsChain(T(), cs, low) && cs[0] == startcluster
      modifies this`decoded, stream`pos, stream`ready
      ensures TableOk()
      ensures n == |cs| <==> IsLast(EndOf(T(), cs, low), g.Last())
      ensures if IsLast(EndOf(T(), cs, low), g.Last()) then end == cs[|cs| - 1]
        else n == |cs| + 1 && end == EndOf(T(), cs, low)
    {
      hide Geometry.Mirrored, Geometry.Table;
      n := 1;
      var at := startcluster;
      ghost var t := T();
      ghost var mark := EndOf(t, cs, low);
      FollowLink(t, cs, low, 0);
      var v := Get(at);
      while !IsLast(v, g.Last())
        invariant TableOk() && 1 <= n <= |cs| + 1
        invariant n <= |cs| ==> at == cs[n - 1] && IsCluster(t, at) && v == t[at]
        invariant n == |cs| + 1 ==> at == mark && v == g.Last() && !IsLast(mark, g.Last())
        decreases |cs| + 1 - n
      {
        FollowLink(t, cs, low, n - 1);
        at := v;
        n := n + 1;
        v := Get(at);
      }
      FollowLink(t, cs, low, Min(n, |cs|) - 1);
      end := at;
    }

    /**
     * count_run: the length of the contiguous run at start, and what its last entry holds. A mark is a run by itself,
     * or with the mark this driver writes, if that comes next.
     */
    method CountRun(start: nat, ghost cs: seq<nat>, ghost low: nat) returns (n: nat, next: nat)
      requires TableOk() && g.size + 2 < low && (start >= low || (IsChain(T(), cs, low) && cs[0] == start))
      modifies this`decoded, stream`pos, stream`ready
      ensures TableOk()
      ensures start >= low ==>
        n == StrayLen(start, g.Last()) && next == if IsLast(start, g.Last()) then start else g.Last()
      ensures start < low ==> 0 < n <= |cs| && cs[..n] == Interval(start, n) && Follows(T(), cs, n, next)
    {
      n := 1;
      next := start;
      ghost var t := T();
      hide Geometry.Mirrored, Geometry.Table;
      while true
        invariant TableOk() && 1 <= n && next == start + n - 1
        invariant start >= low ==> n == 1 || (n == 2 && next == g.Last() && !IsLast(start, g.Last()))
        invariant start < low ==> n <= |cs| && forall k :: 0 <= k < n ==> cs[k] == start + k
        decreases |cs| + 2 - n
      {
        if IsLast(next, g.Last()) {
          break;
        }
        var prev := next;
        if start < low {
          FollowLink(t, cs, low, n - 1);
        }
        next := Get(next);
        if prev != next - 1 {
          break;
        }
        n := n + 1;
      }
    }
  }

  lemma MemoRun(memo: map<nat, nat>, t: seq<nat>, t': seq<nat>, start: nat, vs: seq<nat>, memo': map<nat, nat>)
    requires |t| == |t'| && forall i :: i in memo ==> 2 <= i < |t| && memo[i] == t[i]
    requires 2 <= start && start + |vs| <= |t|
    requires forall j :: 0 <= j < |t| ==> t'[j] == if start <= j < start + |vs| then vs[j - start] else t[j]
    requires memo' == memo + map c | c in Interval(start, |vs|) :: vs[c - start]
    ensures forall i :: i in memo' ==> 2 <= i < |t| && memo'[i] == t'[i]
  {
    forall i | i in memo'
      ensures 2 <= i < |t| && memo'[i] == t'[i]
    {
      InInterval(start, |vs|, i);
    }
  }

  /** The consecutive values mark_run stores. */
  function RunValues(start: nat, count: nat, clear: bool, last: nat): (vs: seq<nat>)
    ensures |vs| == count
    ensures forall k :: 0 <= k < count ==>
      vs[k] == if clear then 0 else if k == count - 1 then last else start + k + 1
  {
    seq(count, k requires 0 <= k < count =>
      if clear then 0 else if k == count - 1 then last else start + k + 1)
  }

  function Opened(offset: nat, clusters: nat, bits: nat, sector: nat): Geometry
    requires sector > 0
  {
    var bytes := ((clusters + 2) * bits + 7) / 8;
    Geometry(bits, offset, offset + CeilDiv(bytes, sector) * sector, clusters)
  }

  /** The clusters that the scan takes for free. */
  ghost function NotBusy(g: Geometry, d: seq<Byte>): set<nat>
    requires g.Fits(d)
  {
    set c | 2 <= c < g.size + 2 && !g.Busy(d, c)
  }

  ghost function Below(s: set<nat>, n: nat): set<nat> { set c | c in s && c < n }

  lemma ScannedFree(g: Geometry, d: seq<Byte>, free: set<nat>)
    requires g.Fits(d) && free == NotBusy(g, d)
    ensures g.ScanSeesTruth(d) ==> free == ZeroSet(g.Table(d))
  {
    g.ScanExact(d);
  }

  /** s is the page of the table whose first slot is that of cluster base. */
  ghost predicate IsPage(g: Geometry, free: set<nat>, s: seq<Byte>, base: nat)
    requires g.Valid()
  {
    forall j :: 0 <= j < g.SlotsIn(|s|) ==>
      (g.PageSlot(|s|, j); (base + j in free <==> !g.BusySlot(s, j)))
  }

  lemma SlotVerdict(g: Geometry, free: set<nat>, s: seq<Byte>, base: nat, j: nat)
    requires g.Valid() && IsPage(g, free, s, base) && j < g.SlotsIn(|s|)
    ensures (g.PageSlot(|s|, j); (base + j in free <==> !g.BusySlot(s, j)))
  {
  }

  lemma StartScan(g: Geometry, free: set<nat>)
    requires g.Valid() && forall c :: c in free ==> 2 <= c < g.size + 2
    ensures PageStart(g, 0) && g.SlotsIn(0) == 0 && g.SlotsIn(g.DataLen()) == g.size
    ensures g.HeadLen() + g.DataLen() <= g.ByteLen()
    ensures RunsOk(map[], 2) && FreeSet(map[], g.size + 2) == Below(free, 2) && |Below(free, 2)| == 0
  {
    g.WholeTable();
    assert Below(free, 2) == {};
    assert FreeSet(map[], g.size + 2) == {};
  }

  /** Where a page may start: anywhere slot-aligned with 32 bits, else a page is the whole table. */
  predicate PageStart(g: Geometry, at: nat) {
    && at <= g.DataLen()
    && g.SlotsIn(at) <= g.size
    && (if g.bits == 32 then at % 4 == 0 else at == 0 || at == g.DataLen())
  }

  function PageBytes(g: Geometry, at: nat): int {
    Min(if g.bits == 32 then 0x40_0000 else g.offset2 - (g.offset + g.HeadLen()), g.DataLen() - at)
  }

  lemma PageInside(g: Geometry, d: seq<Byte>, at: nat, n: nat)
    requires g.Fits(d) && n > 0 && at + n <= g.DataLen()
    ensures |ReadAt(d, g.offset + g.HeadLen() + at, n)| == n && g.offset + g.HeadLen() + at + n <= |d| && g.Valid()
  {
    g.WholeTable();
  }

  lemma PageSize(g: Geometry, at: nat, n: nat)
    requires g.Valid() && PageStart(g, at) && at < g.DataLen()
    requires n == PageBytes(g, at)
    ensures n > 0 && at + n <= g.DataLen() && PageStart(g, at + n)
    ensures g.SlotsIn(at + n) == g.SlotsIn(at) + g.SlotsIn(n)
    ensures g.bits != 32 ==> at == 0 && n == g.DataLen()
  {
    g.WholeTable();
    if g.bits == 32 {
      assert g.DataLen() == g.size * 4;
    } else {
      assert g.SlotsIn(0) == 0;
    }
  }

  lemma PageOf(g: Geometry, d: seq<Byte>, at: nat, s: seq<Byte>, n: nat)
    requires g.Fits(d) && PageStart(g, at) && at + n <= g.DataLen()
    requires g.bits == 32 || (at == 0 && n == g.DataLen())
    requires s == ReadAt(d, g.offset + g.HeadLen() + at, n)
    ensures |s| == n && IsPage(g, NotBusy(g, d), s, 2 + g.SlotsIn(at))
  {
    g.WholeTable();
    var whole := d[g.offset + g.HeadLen()..g.offset + g.HeadLen() + g.DataLen()];
    SubSlice(d, g.offset + g.HeadLen(), g.offset + g.HeadLen() + g.DataLen(), at, n);
    forall j | 0 <= j < g.SlotsIn(|s|)
      ensures (g.PageSlot(|s|, j); (2 + g.SlotsIn(at) + j in NotBusy(g, d) <==> !g.BusySlot(s, j)))
    {
      g.PageSlot(|s|, j);
      PageOfAt(g, d, at, s, whole, j);
    }
  }

  lemma SubSlice(d: seq<Byte>, a: nat, b: nat, i: nat, n: nat)
    requires a <= b <= |d| && a + i + n <= b
    ensures ReadAt(d, a + i, n) == d[a..b][i..i + n]
  {
    var x, y := ReadAt(d, a + i, n), d[a..b][i..i + n];
    assert |x| == |y|;
    forall j | 0 <= j < |y|
      ensures x[j] == y[j]
    {
      assert y[j] == d[a..b][i + j] == d[a + (i + j)];
    }
  }

  lemma PageOfAt(g: Geometry, d: seq<Byte>, at: nat, s: seq<Byte>, whole: seq<Byte>, j: nat)
    requires g.Fits(d) && PageStart(g, at) && at + |s| <= g.DataLen() && g.HeadLen() + g.DataLen() <= g.ByteLen()
    requires whole == d[g.offset + g.HeadLen()..g.offset + g.HeadLen() + g.DataLen()]
    requires s == whole[at..at + |s|] && j < g.SlotsIn(|s|)
    requires g.bits == 32 || (at == 0 && |s| == g.DataLen())
    ensures (g.PageSlot(|s|, j); (2 + g.SlotsIn(at) + j in NotBusy(g, d) <==> !g.BusySlot(s, j)))
  {
    assert g.Valid() && |whole| == g.DataLen();
    PagesEnd(g, at, |s|, j);
    hide *;
    InWhole(g, d, whole, 2 + g.SlotsIn(at) + j);
    SameSlot(g, at, s, whole, j);
  }

  lemma InWhole(g: Geometry, d: seq<Byte>, whole: seq<Byte>, c: nat)
    requires g.Fits(d) && 2 <= c < g.size + 2 && g.HeadLen() + g.DataLen() <= g.ByteLen()
    requires whole == d[g.offset + g.HeadLen()..g.offset + g.HeadLen() + g.DataLen()]
    ensures (g.WholeTable(); g.PageSlot(|whole|, c - 2); (c in NotBusy(g, d) <==> !g.BusySlot(whole, c - 2)))
  {
    g.WholeTable();
    g.PageSlot(|whole|, c - 2);
    hide Geometry.BusySlot, Geometry.ByteLen, Geometry.HeadLen, Geometry.DataLen, Geometry.SlotsIn;
  }

  /** A slot of a page, and the same slot of the table. */
  lemma SameSlot(g: Geometry, at: nat, s: seq<Byte>, whole: seq<Byte>, j: nat)
    requires g.Valid() && PageStart(g, at) && |whole| == g.DataLen() && at + |s| <= |whole| && s == whole[at..at + |s|]
    requires j < g.SlotsIn(|s|) && g.SlotsIn(at) + j < g.size && (g.bits == 32 || (at == 0 && |s| == |whole|))
    ensures (g.PageSlot(|s|, j); g.WholeTable(); g.PageSlot(|whole|, g.SlotsIn(at) + j);
      (g.BusySlot(whole, g.SlotsIn(at) + j) <==> g.BusySlot(s, j)))
  {
    g.WholeTable();
    g.PageSlot(|s|, j);
    g.PageSlot(|whole|, g.SlotsIn(at) + j);
    if g.bits == 32 {
      assert g.SlotsIn(at) == at / 4;
      PageDword(whole, s, at, j);
    } else {
      assert s == whole && g.SlotsIn(at) == 0;
      hide Geometry.BusySlot;
    }
  }

  /** The slots of a page are slots of the table. */
  lemma PagesEnd(g: Geometry, at: nat, n: nat, j: nat)
    requires g.Valid() && PageStart(g, at) && at + n <= g.DataLen() && j < g.SlotsIn(n)
    requires g.bits == 32 || (at == 0 && n == g.DataLen())
    ensures g.SlotsIn(at) + j < g.size
  {
  }

  lemma PageDword(whole: seq<Byte>, s: seq<Byte>, at: nat, j: nat)
    requires at % 4 == 0 && at + |s| <= |whole| && s == whole[at..at + |s|] && j * 4 + 4 <= |s|
    ensures (at / 4 + j) * 4 + 4 <= |whole| && U32(whole, (at / 4 + j) * 4) == U32(s, j * 4)
  {
    assert (at / 4 + j) * 4 == at + j * 4;
    assert whole[at + j * 4] == s[j * 4] && whole[at + j * 4 + 1] == s[j * 4 + 1];
    assert whole[at + j * 4 + 2] == s[j * 4 + 2] && whole[at + j * 4 + 3] == s[j * 4 + 3];
  }

  /** From one slot on, busy clusters up to first and free ones up to the bound. */
  ghost predicate Stretch(free: set<nat>, from: nat, first: nat, to: nat) {
    && from <= first <= to
    && (forall c :: from <= c < first ==> c !in free)
    && (forall c :: first <= c < to ==> c in free)
  }

  /** A stretch of free slots found, possibly followed by the busy slot that ended it. */
  lemma ScannedRun(free: set<nat>, from: nat, first: nat, run: nat, to: nat, m: FreeMap, n: nat)
    requires 2 <= from && 0 < run && to <= n
    requires Stretch(free, from, first, first + run)
    requires to == first + run || (to == first + run + 1 && first + run !in free)
    requires RunsOk(m, from) && FreeSet(m, n) == Below(free, from)
    ensures RunsOk(m[first := run], to)
    ensures FreeSet(m[first := run], n) == Below(free, to)
    ensures |FreeSet(m[first := run], n)| == |FreeSet(m, n)| + run
  {
    Wider(m, from, n);
    ApartFrom(m, from, n, first, run, free);
    BelowRun(free, from, first, run, to);
    hide Below, FreeSet, Covers;
    AddRun(m, n, first, run);
  }

  lemma Wider(m: FreeMap, from: nat, n: nat)
    requires RunsOk(m, from) && from <= n
    ensures RunsOk(m, n)
  {
  }

  lemma ApartFrom(m: FreeMap, from: nat, n: nat, first: nat, run: nat, free: set<nat>)
    requires RunsOk(m, from) && from <= first && FreeSet(m, n) == Below(free, from)
    ensures Span(first, run) !! FreeSet(m, n)
  {
  }

  lemma ScannedNothing(free: set<nat>, from: nat, to: nat, m: FreeMap)
    requires Stretch(free, from, to, to) && RunsOk(m, from)
    ensures Below(free, to) == Below(free, from) && RunsOk(m, to)
  {
  }

  lemma BelowRun(free: set<nat>, from: nat, first: nat, run: nat, to: nat)
    requires from <= first && first + run <= to
    requires forall c :: from <= c < first ==> c !in free
    requires forall c :: first <= c < first + run ==> c in free
    requires forall c :: first + run <= c < to ==> c !in free
    ensures Below(free, to) == Below(free, from) + Span(first, run)
  {
  }

  lemma NothingGrown(t: seq<nat>, cs: seq<nat>, last: nat, free: set<nat>, runs: seq<Run>)
    requires cs == [] || IsChain(t, cs, last)
    requires |t| <= last && free == ZeroSet(t) && Positive(runs) && Flatten(runs) == cs
    ensures Allocating(t, t, cs, [], free, runs)
  {
    if cs != [] {
      ChainDistinct(t, cs, last);
    }
    assert cs + [] == cs;
  }

  /** The end mark stored last turns the open growth into a chain. */
  lemma CloseGrown(t: seq<nat>, open: seq<nat>, t': seq<nat>, cs: seq<nat>, added: seq<nat>, last: nat, free: set<nat>,
                   runs: seq<Run>)
    requires Allocating(t, open, cs, added, free, runs) && added != [] && |t| <= last
    requires cs == [] || IsChain(t, cs, last)
    requires IsCluster(open, added[|added| - 1]) ==> t' == open[added[|added| - 1] := last]
    ensures IsCluster(open, added[|added| - 1])
    ensures Grown(t, t', cs, added, last) && free == ZeroSet(t')
    ensures Positive(runs) && Flatten(runs) == cs + added
  {
    var x := cs + added;
    var z := |added| - 1;
    assert x[|cs| + z] == added[z];
    forall k | 0 <= k < z
      ensures t'[added[k]] == added[k + 1]
    {
      assert x[|cs| + k] == added[k];
    }
    if cs != [] {
      assert x[|cs| - 1] == cs[|cs| - 1];
    }
    GrownFree(t, t', cs, added, last, free);
  }

  /** Clusters just taken from free space are none of the chain's. */
  lemma TakenApart(t: seq<nat>, cs: seq<nat>, added: seq<nat>, last: nat, free: set<nat>, i: nat, n: nat)
    requires cs == [] || IsChain(t, cs, last)
    requires |t| <= last
    requires forall c :: c in free <==> c in ZeroSet(t) && c !in added
    requires Span(i, n) <= free
    ensures forall k :: 0 <= k < |cs + added| ==> !InSpan(i, n, (cs + added)[k])
    ensures n > 0 ==> i !in cs + added
  {
    var x := cs + added;
    forall k | 0 <= k < |x|
      ensures x[k] !in Span(i, n) && !InSpan(i, n, x[k])
    {
      if k < |cs| {
        ChainEntry(t, cs, last, k);
      }
      assert x[k] !in Span(i, n);
    }
  }

  lemma LastInside(t: seq<nat>, t0: seq<nat>, cs: seq<nat>, added: seq<nat>, free: set<nat>, runs: seq<Run>)
    requires Allocating(t, t0, cs, added, free, runs) && runs != []
    ensures cs + added != []
    ensures var l := runs[|runs| - 1];
      IsCluster(t, l.start + l.len - 1) && l.start + l.len - 1 == (cs + added)[|cs + added| - 1]
  {
    LastOf(runs);
    var x := cs + added;
    assert x[|x| - 1] == if added != [] then added[|added| - 1] else cs[|cs| - 1];
  }

  lemma SameLength(t: seq<nat>, t0: seq<nat>, cs: seq<nat>, added: seq<nat>, free: set<nat>, runs: seq<Run>)
    requires Allocating(t, t0, cs, added, free, runs)
    ensures |t| == |t0|
  {
  }

  lemma LastUsable(t: seq<nat>, t0: seq<nat>, cs: seq<nat>, added: seq<nat>, free: set<nat>, lost: seq<Run>, rest: seq<Run>)
    requires Allocating(t, t0, cs, added, free, rest) && Lost(lost, t) && |t| >= 2
    ensures lost + rest != [] ==> 3 <= EndOfRuns(lost + rest)
    ensures lost != [] ==> Strays(lost, |t|)
  {
    if rest != [] {
      LastInside(t, t0, cs, added, free, rest);
      assert (lost + rest)[|lost + rest| - 1] == rest[|rest| - 1];
    } else {
      assert lost + rest == lost;
    }
  }

  /** The stray runs a list starts with, and the others. */
  ghost function Split(t: seq<nat>, runs: seq<Run>, last: nat): (r: (seq<Run>, seq<Run>))
    requires Growable(t, runs, last)
    ensures runs == r.0 + r.1 && Lost(r.0, t) && Positive(r.1) && Flatten(r.1) == Behind(runs, |t|)
    ensures r.0 == [] || Behind(runs, |t|) == []
    ensures Behind(runs, |t|) == [] || IsChain(t, Behind(runs, |t|), last)
    ensures if Strays(runs, |t|) then r.0 == runs else r.0 == []
  {
    if Strays(runs, |t|) then (runs, []) else ([], runs)
  }

  lemma Joined(t: seq<nat>, runs: seq<Run>, lost: seq<Run>, rest: seq<Run>, cs: seq<nat>, added: seq<nat>)
    requires Lost(lost, t) && Positive(rest) && Flatten(rest) == cs + added
    requires cs == Behind(runs, |t|) && (if Strays(runs, |t|) then lost == runs else lost == [])
    ensures Positive(lost + rest) && Flatten(lost + rest) == Flatten(runs) + added
  {
    FlattenBoth(lost, rest);
    assert [] + added == added && [] + rest == rest;
  }

  /** A run just taken is recorded behind the stray runs. */
  lemma Behindmost(t: seq<nat>, t0: seq<nat>, cs: seq<nat>, added: seq<nat>, free: set<nat>, lost: seq<Run>,
                   rest: seq<Run>, i: nat, n: nat)
    requires Allocating(t, t0, cs, added, free, rest) && Lost(lost, t) && (lost == [] || cs == [])
    requires 0 < n && Span(i, n) <= free
    ensures Record(lost + rest, i, n) == lost + Record(rest, i, n)
  {
    assert i in Span(i, n) && i in ZeroSet(t);
    if lost != [] && rest != [] {
      FlattenIndex(rest, |rest| - 1, 0);
      assert cs + added == added;
    }
    RecordBehind(t, lost, rest, i, n);
  }

  lemma MarkedBehind(t0: seq<nat>, t2: seq<nat>, lost: seq<Run>, rest: seq<Run>, i: nat, n: nat)
    requires Marked(t0, t2, lost + rest, i, n) && (lost != [] ==> Strays(lost, |t0|))
    ensures Marked(t0, t2, rest, i, n)
  {
    if rest != [] {
      assert (lost + rest)[|lost + rest| - 1] == rest[|rest| - 1];
    } else {
      assert lost + rest == lost;
    }
  }

  /** One round of the allocation loop. */
  lemma AllocStep(t: seq<nat>, t0: seq<nat>, cs: seq<nat>, added: seq<nat>, last: nat, free: set<nat>,
                  runs: seq<Run>, i: nat, n: nat, t2: seq<nat>)
    requires Allocating(t, t0, cs, added, free, runs)
    requires cs == [] || IsChain(t, cs, last)
    requires |t| <= last && Span(i, n) <= free && Marked(t0, t2, runs, i, n)
    ensures Allocating(t, t2, cs, added + Interval(i, n), free - Span(i, n), Record(runs, i, n))
  {
    AllocGrows(t, t0, cs, added, last, free, runs, i, n, t2);
    AllocTakes(t, t0, cs, added, last, free, runs, i, n);
    hide Growing, Flatten, Record, ZeroSet, Positive, Span, Interval, InSpan;
    Regroup(cs, added, Interval(i, n), added + Interval(i, n));
  }

  lemma AllocGrows(t: seq<nat>, t0: seq<nat>, cs: seq<nat>, added: seq<nat>, last: nat, free: set<nat>,
                   runs: seq<Run>, i: nat, n: nat, t2: seq<nat>)
    requires Allocating(t, t0, cs, added, free, runs)
    requires cs == [] || IsChain(t, cs, last)
    requires |t| <= last && Span(i, n) <= free && Marked(t0, t2, runs, i, n)
    ensures Growing(t, t2, cs, added + Interval(i, n))
  {
    TakenApart(t, cs, added, last, free, i, n);
    if runs != [] {
      LastInside(t, t0, cs, added, free, runs);
    }
    hide ZeroSet, IsChain, Span;
    var t1: seq<nat> :| MarkedRun(t0, t1, i, n) && TailTo(t1, t2, runs, i);
    GrowStep(t, t0, cs, added, i, n, t1, t2);
  }

  lemma AllocTakes(t: seq<nat>, t0: seq<nat>, cs: seq<nat>, added: seq<nat>, last: nat, free: set<nat>,
                   runs: seq<Run>, i: nat, n: nat)
    requires Allocating(t, t0, cs, added, free, runs)
    requires cs == [] || IsChain(t, cs, last)
    requires |t| <= last && Span(i, n) <= free && 0 < n
    ensures forall c :: c in free - Span(i, n) <==> c in ZeroSet(t) && c !in added + Interval(i, n)
    ensures forall k :: 0 <= k < |added + Interval(i, n)| ==> (added + Interval(i, n))[k] in ZeroSet(t)
    ensures Positive(Record(runs, i, n))
    ensures Flatten(Record(runs, i, n)) == cs + added + Interval(i, n)
  {
    TakenApart(t, cs, added, last, free, i, n);
    TakenFree(t, added, free, i, n);
    RecordFlattens(runs, i, n);
  }

  lemma TakenFree(t: seq<nat>, added: seq<nat>, free: set<nat>, i: nat, n: nat)
    requires forall c :: c in free <==> c in ZeroSet(t) && c !in added
    requires forall k :: 0 <= k < |added| ==> added[k] in ZeroSet(t)
    requires Span(i, n) <= free
    ensures forall c :: c in free - Span(i, n) <==> c in ZeroSet(t) && c !in added + Interval(i, n)
    ensures forall k :: 0 <= k < |added + Interval(i, n)| ==> (added + Interval(i, n))[k] in ZeroSet(t)
  {
    forall c: nat
      ensures c in added + Interval(i, n) <==> c in added || c in Span(i, n)
    {
      InInterval(i, n, c);
    }
    forall k | 0 <= k < n
      ensures Interval(i, n)[k] in ZeroSet(t)
    {
      assert i + k in Span(i, n);
    }
  }

  lemma AllReleased(t: seq<nat>, t': seq<nat>, cs: seq<nat>, last: nat)
    requires Releasing(t, t', cs, last, |cs|)
    ensures Released(t, t', cs)
  {
    assert cs[..|cs|] == cs;
  }

  lemma RunStart(t: seq<nat>, t0: seq<nat>, cs: seq<nat>, last: nat, k: nat, start: nat, n: nat)
    requires Releasing(t, t0, cs, last, k) && k < |cs| && start == cs[k] && |t0| <= last
    requires 0 < n <= |cs| - k && cs[k..][..n] == Interval(start, n)
    ensures 2 <= start && start + n <= |t0|
    ensures forall c: nat :: InSpan(start, n, c) ==> c !in ZeroSet(t0)
  {
    var rest := cs[k..];
    assert rest[n - 1] == rest[..n][n - 1] == start + n - 1;
    assert IsCluster(t0, rest[n - 1]) && IsCluster(t0, rest[0]);
    forall c: nat | InSpan(start, n, c)
      ensures c !in ZeroSet(t0)
    {
      assert rest[c - start] == rest[..n][c - start] == c;
      ChainEntry(t0, rest, last, c - start);
    }
  }

  /** Clearing a run adds exactly its clusters to the zero entries and to the map. */
  lemma ReleaseSpace(m: FreeMap, t0: seq<nat>, s: nat, n: nat, t1: seq<nat>)
    requires RunsOk(m, |t0|) && FreeSet(m, |t0|) == ZeroSet(t0)
    requires Cleared(t0, t1, s, n)
    requires forall c: nat :: InSpan(s, n, c) ==> c !in ZeroSet(t0)
    ensures RunsOk(m[s := n], |t0|) && FreeSet(m[s := n], |t0|) == ZeroSet(t1)
    ensures |FreeSet(m[s := n], |t0|)| == |FreeSet(m, |t0|)| + n
  {
    hide RunsOk, FreeSet;
    AddRun(m, |t0|, s, n);
    assert ZeroSet(t1) == ZeroSet(t0) + Span(s, n);
  }

  /** next is what the entry of the n-th cluster holds, and no continuation of its run. */
  ghost predicate Follows(t: seq<nat>, cs: seq<nat>, n: nat, next: nat) {
    && 0 < n <= |cs| && IsCluster(t, cs[n - 1]) && next == t[cs[n - 1]]
    && (n < |cs| ==> next == cs[n] != cs[n - 1] + 1)
  }

  lemma RestIsChain(t: seq<nat>, t0: seq<nat>, cs: seq<nat>, last: nat, k: nat)
    requires IsChain(t, cs, last) && Releasing(t, t0, cs, last, k) && k < |cs| && |t| <= last
    ensures IsChain(t0, cs[k..], last) && cs[k..][0] == cs[k] && IsCluster(t0, cs[k]) && |t0| == |t|
    ensures EndOf(t0, cs[k..], last) == EndOf(t, cs, last)
  {
    assert IsCluster(t0, cs[k..][0]);
    ChainDistinct(t, cs, last);
    var c := cs[|cs| - 1];
    assert cs[k..][|cs| - k - 1] == c && IsCluster(t, c);
    forall j | 0 <= j < k ensures cs[..k][j] != c {
      Differs(cs, j, |cs| - 1);
    }
  }

  lemma NextOf(t0: seq<nat>, cs: seq<nat>, last: nat, k: nat, n: nat, next: nat)
    requires k < |cs| && IsChain(t0, cs[k..], last) && Follows(t0, cs[k..], n, next)
    ensures if k + n == |cs| then next == EndOf(t0, cs[k..], last) else next == cs[k + n] && next < |t0|
  {
    if k + n < |cs| {
      assert cs[k..][n] == cs[k + n] && IsCluster(t0, cs[k..][n]);
    }
  }

  lemma MarkBeyond(t: seq<nat>, cs: seq<nat>, low: nat)
    requires IsChain(t, cs, low)
    ensures EndOf(t, cs, low) >= low
  {
  }

  /** A 16-bit chain that ends in 0xFFF8 is such a one. */
  lemma LowMarkReached(g: Geometry)
    requires g.bits == 16
    ensures IsChain([0, 0, 0xFFF8], [2], 0xFFF8) && !IsLast(EndOf([0, 0, 0xFFF8], [2], 0xFFF8), g.Last())
    ensures StrayLen(0xFFF8, g.Last()) == 1 && StrayLen(0xFFFE, g.Last()) == 2
  {
    var t: seq<nat> := [0, 0, 0xFFF8];
    var cs: seq<nat> := [2];
    assert IsCluster(t, cs[0]) && t[cs[0]] == 0xFFF8;
  }

  lemma FollowLink(t: seq<nat>, cs: seq<nat>, last: nat, k: nat)
    requires IsChain(t, cs, last) && |t| <= last && k < |cs|
    ensures IsCluster(t, cs[k])
    ensures if k == |cs| - 1 then IsLast(t[cs[k]], last) else t[cs[k]] == cs[k + 1]
    ensures k < |cs| - 1 ==> IsCluster(t, cs[k + 1])
  {
  }

  lemma NonEmpty(m: FreeMap, n: nat)
    requires |FreeSet(m, n)| > 0
    ensures m != map[]
  {
    var c :| c in FreeSet(m, n);
    assert Covers(m, c);
  }
}
