/** A cluster chain opened like a plain file. */
module ChainFile {
  import opened Bytes
  import opened FlatDisk
  import opened FatTable
  import opened FatChains
  import opened FatDriver
  import opened FatVolume
  import opened ClusterBytes

  /** A file as its chain, its bytes to the end of the last cluster, its size and the position. */
  datatype FileState = FileState(chain: seq<nat>, bytes: seq<Byte>, filesize: nat, pos: nat)

  /** The chain of a file before and after an operation that may append clusters to it. */
  ghost predicate Grew(cs: seq<nat>, t: seq<nat>, cs': seq<nat>, t': seq<nat>, added: seq<nat>, last: nat) {
    if added == [] then cs' == cs && t' == t
    else cs' == cs + added && Grown(t, t', cs, added, last)
  }

  /** s stored at the position of f; tail is what the clusters appended to f held before. */
  ghost predicate Stored(f: FileState, f': FileState, s: seq<Byte>, tail: seq<Byte>, blank: bool) {
    && f.pos + |s| <= |f.bytes + tail|
    && f'.bytes == Written(f.bytes + tail, f.pos, s, blank)
    && f'.pos == f.pos + |s|
    && f'.filesize == Max(f.filesize, f'.pos)
  }

  class Chain {
    const stream: DiskStream
    const boot: Boot
    const fat: Fat
    const writable: bool
    var start: nat       // first cluster, or zero if empty
    var end: nat         // last cluster allocated
    var nofat: bool      // the chain is one contiguous run
    var size: nat        // bytes in allocated clusters
    var filesize: nat
    var pos: nat
    var vcn: nat         // position as cluster of the chain and offset in it
    var vco: nat
    var lastVcn: nat     // last cluster sought: its place in the chain and on the volume
    var lastLcn: nat
    var runs: seq<Run>

    ghost function Cs(): seq<nat>
      reads this`runs
    {
      Flatten(runs)
    }

    /** The driver and the volume under this chain. */
    ghost predicate Mounted()
      reads fat`decoded, fat`freeMap, fat`freeClusters, fat`uncompacted, stream`data
    {
      && fat.stream == stream && fat.Valid()
      && fat.g.offset2 + fat.g.ByteLen() <= boot.dataoffs
      && Holds(stream.data, boot, fat.g.size)
    }

    /** The run list is the chain the table holds. */
    ghost predicate OnDisk(t: seq<nat>)
      reads this`runs, this`start, this`size, this`nofat, this`filesize
    {
      && Positive(runs)
      && (if Cs() == [] then start == 0 else IsChain(t, Cs(), fat.g.Last()) && start == Cs()[0])
      && size == boot.Bytes(|Cs()|)
      && (nofat ==> |runs| == 1)
      && filesize <= size
    }

    ghost predicate Valid()
      reads this`runs, this`start, this`size, this`nofat, this`filesize
      reads fat`decoded, fat`freeMap, fat`freeClusters, fat`uncompacted, stream`data
    {
      Mounted() && OnDisk(fat.T())
    }

    lemma ChainFacts()
      requires Valid()
      ensures InRange(Cs(), fat.g.size) && Distinct(Cs())
    {
      if Cs() != [] {
        assert forall k :: 0 <= k < |Cs()| ==> IsCluster(fat.T(), Cs()[k]);
        ChainDistinct(fat.T(), Cs(), fat.g.Last());
      }
    }

    /**
     * Opens the chain that starts at a cluster (zero: an empty file), sized by the directory or by the chain. A mark
     * the driver does not know, any from low on, counts as a cluster.
     */
    constructor (boot: Boot, fat: Fat, writable: bool, cluster: nat, size: nat, ghost cs: seq<nat>, ghost low: nat)
      requires fat.Valid() && fat.g.offset2 + fat.g.ByteLen() <= boot.dataoffs
      requires Holds(fat.stream.data, boot, fat.g.size)
      requires cluster == 0 ==> cs == [] && size == 0
      requires cluster != 0 ==> fat.g.size + 2 < low && IsChain(fat.T(), cs, low) && cs[0] == cluster
      requires size <= boot.Bytes(|cs|)
      modifies fat`decoded, fat.stream`pos, fat.stream`ready
      ensures fat.Valid() && fat.T() == old(fat.T())
      ensures Valid() <==> cluster == 0 || EndOf(fat.T(), cs, low) == fat.g.Last()
      ensures this.fat == fat && this.boot == boot && stream == fat.stream && this.writable == writable
      ensures Positive(runs) && Cs() == if cluster == 0 then [] else MappedAs(fat.T(), cs, low, fat.g.Last())
      ensures this.size == boot.Bytes(|cs| +
          if cluster == 0 || IsLast(EndOf(fat.T(), cs, low), fat.g.Last()) then 0 else 1)
      ensures filesize == (if size == 0 then this.size else size) && pos == 0
    {
      hide RunsOk, FreeSet, Geometry.Mirrored, Geometry.Table;
      this.stream := fat.stream;
      this.boot := boot;
      this.fat := fat;
      this.writable := writable;
      start := cluster;
      end := 0;
      nofat := false;
      this.size := 0;
      filesize := size;
      pos, vcn, vco, lastVcn, lastLcn := 0, 0, 0, 0, cluster;
      runs := [];
      new;
      hide MappedAs, IsChain, IsLast, EndOf, Holds, Positive;
      NoneMapped();
      if cluster != 0 {
        CountAll(cs, low);
      }
      if size == 0 {
        filesize := this.size;
      }
      if cluster != 0 {
        GetFrags(cs, low);
        Opened(cs, low);
      }
    }

    /** The size of the chain, as count has it. */
    method CountAll(ghost cs: seq<nat>, ghost low: nat)
      requires fat.stream == stream && fat.Valid() && fat.g.size + 2 < low
      requires IsChain(fat.T(), cs, low) && cs[0] == start
      modifies this`size, this`end, fat`decoded, stream`pos, stream`ready
      ensures fat.Valid() && fat.T() == old(fat.T())
      ensures size == boot.Bytes(|cs| + if IsLast(EndOf(fat.T(), cs, low), fat.g.Last()) then 0 else 1)
    {
      hide IsChain, RunsOk, FreeSet, Geometry.Mirrored, Geometry.Table, IsLast;
      var n, last := fat.Count(start, cs, low);
      size := n * boot.cluster;
      end := last;
    }

    /** What the constructor leaves describes the chain if it ends in the mark the driver writes, and only then. */
    lemma Opened(cs: seq<nat>, low: nat)
      requires Mounted() && fat.g.size + 2 < low && IsChain(fat.T(), cs, low) && start == cs[0]
      requires Positive(runs) && !nofat
      requires Cs() == MappedAs(fat.T(), cs, low, fat.g.Last()) && filesize <= size &&
          (EndOf(fat.T(), cs, low) == fat.g.Last() ==> size == boot.Bytes(|cs|))
      ensures Valid() <==> EndOf(fat.T(), cs, low) == fat.g.Last()
    {
      hide Flatten;
      if EndOf(fat.T(), cs, low) != fat.g.Last() {
        assert Cs()[|cs|] == EndOf(fat.T(), cs, low) && !IsCluster(fat.T(), Cs()[|cs|]);
      }
    }

    /**
     * _get_frags: maps the runs of the chain from its first cluster. It stops at the mark the driver writes and takes
     * any other end mark for one more run.
     */
    method GetFrags(ghost cs: seq<nat>, ghost low: nat)
      requires fat.stream == stream && fat.Valid() && fat.g.size + 2 < low
      requires IsChain(fat.T(), cs, low) && cs[0] == start
      requires runs == []
      modifies this`runs, fat`decoded, stream`pos, stream`ready
      ensures fat.Valid() && fat.T() == old(fat.T())
      ensures Positive(runs) && Cs() == MappedAs(fat.T(), cs, low, fat.g.Last())
    {
      var at := start;
      ghost var k := 0;
      ghost var t := fat.T();
      ChainDistinct(t, cs, low);
      assert cs[0..] == cs && cs[..0] == [] && Flatten([]) == [];
      assert cs[..|cs|] == cs;
      hide Flatten, IsChain, ZeroSet, Interval, RunsOk, FreeSet, Geometry.Mirrored, Geometry.Table, Put;
      hide Distinct, Positive;
      while true
        invariant fat.Valid() && fat.T() == t
        invariant k <= |cs| && NextRun(t, cs, low, fat.g.Last(), k, at)
        invariant Positive(runs) && Flatten(runs) == cs[..k]
        decreases |cs| - k
      {
        var length, next := Frag(at, cs, low, k);
        if next == fat.g.Last() || next == at + length - 1 {
          break;
        }
        k := k + length;
        at := next;
      }
    }

    /** One round of the mapping loop. */
    method Frag(at: nat, ghost cs: seq<nat>, ghost low: nat, ghost k: nat) returns (length: nat, next: nat)
      requires fat.stream == stream && fat.Valid() && fat.g.size + 2 < low && IsChain(fat.T(), cs, low) && Distinct(cs)
      requires k <= |cs| && NextRun(fat.T(), cs, low, fat.g.Last(), k, at)
      requires Positive(runs) && Flatten(runs) == cs[..k]
      modifies this`runs, fat`decoded, stream`pos, stream`ready
      ensures fat.Valid() && fat.T() == old(fat.T()) && Positive(runs) && 0 < length
      ensures if next == fat.g.Last() || next == at + length - 1 then Cs() == MappedAs(fat.T(), cs, low, fat.g.Last())
        else k + length <= |cs| && NextRun(fat.T(), cs, low, fat.g.Last(), k + length, next) && Cs() == cs[..k + length]
    {
      hide Flatten, IsChain, ZeroSet, Interval, RunsOk, FreeSet, Geometry.Mirrored, Geometry.Table, Put;
      hide Distinct, Positive, Follows;
      RunAhead(fat.T(), cs, low, fat.g.Last(), k, at);
      length, next := fat.CountRun(at, cs[k..], low);
      if k < |cs| {
        NextFrag(fat.T(), cs, low, fat.g.Last(), k, at, length, next, runs);
      } else {
        StrayRun(fat.T(), cs, low, fat.g.Last(), at, runs);
      }
      runs := Put(runs, at, length);
    }

    /** The bytes of the file, up to the end of its last cluster. */
    ghost function Contents(): (r: seq<Byte>)
      requires Valid()
      reads this`runs, this`start, this`size, this`nofat, this`filesize
      reads fat`decoded, fat`freeMap, fat`freeClusters, fat`uncompacted, stream`data
      ensures |r| == size
    {
      ChainFacts();
      Logical(stream.data, boot, fat.g.size, Cs())
    }

    ghost function State(): FileState
      requires Valid()
      reads this`runs, this`start, this`size, this`nofat, this`filesize, this`pos
      reads fat`decoded, fat`freeMap, fat`freeClusters, fat`uncompacted, stream`data
    {
      FileState(Cs(), Contents(), filesize, pos)
    }

    /** Clusters that storing up to position stop would need beyond the chain. */
    function Missing(stop: nat): nat
      requires boot.cluster > 0
      reads this`size
    {
      if stop > size then CeilDiv(stop - size, boot.cluster) else 0
    }

    /** The stream stands at logical position pos, a byte of the chain. */
    ghost predicate AtPos()
      reads this`runs, this`pos, this`vcn, this`vco, stream`pos, stream`ready
    {
      && boot.cluster > 0 && stream.ready
      && vcn == boot.Vcn(pos) && vco == boot.Vco(pos)
      && vcn < |Cs()|
      && stream.pos == Phys(boot, Cs(), pos)
    }

    /** The same, and the cached cluster is pos's. */
    ghost predicate Located()
      reads this`runs, this`pos, this`vcn, this`vco, this`lastVcn, this`lastLcn, stream`pos, stream`ready
    {
      AtPos() && lastLcn == Cs()[vcn] && lastVcn == vcn
    }

    /** The tail of seek, all of it when the position is inside the chain. */
    method Locate()
      requires Valid()
      modifies this`vcn, this`vco, this`lastVcn, this`lastLcn, stream`pos, stream`ready
      ensures pos < size ==> Located()
      ensures vcn == boot.Vcn(pos) && vco == boot.Vco(pos)
    {
      hide Flatten, IsChain, Boot.Vcn, Boot.Vco, Boot.Bytes, Boot.Offset;
      ChainFacts();
      PositionBound(boot, |Cs()|, pos);
      vcn := boot.Vcn(pos);
      vco := boot.Vco(pos);
      var found, lcn := ClusterOf(runs, vcn);
      if found {
        ClusterInside(stream.data, boot, fat.g.size, lcn);
        stream.Seek(boot.Offset(lcn) + vco);
        lastVcn, lastLcn := vcn, lcn;
      }
    }

    /** _alloc: appends count free clusters to the chain, or fails and changes nothing. */
    method Extend(count: nat) returns (ok: bool, ghost added: seq<nat>)
      requires Valid() && count > 0
      modifies this`runs, this`start, this`end, this`nofat, this`size
      modifies fat`decoded, fat`freeMap, fat`freeClusters, fat`uncompacted, stream
      ensures Valid() && SameData(old(stream.data), stream.data, boot)
      ensures ok <==> count <= old(fat.freeClusters)
      ensures |added| == if ok then count else 0
      ensures Grew(old(Cs()), old(fat.T()), Cs(), fat.T(), added, fat.g.Last())
      ensures if ok then nofat == (|runs| == 1) else runs == old(runs)
      ensures size == old(size) + (if ok then boot.Bytes(count) else 0) && filesize <= size
      ensures fat.freeClusters == old(fat.freeClusters) - |added|
    {
      ghost var t, d := fat.T(), stream.data;
      ghost var cs := Cs();
      hide Geometry.SameOutside, Geometry.Table, SameData, RunsOk;
      var r, runs';
      ChainGrowable(t, runs, fat.g.Last());
      r, runs', added := fat.Alloc(runs, count);
      OutsideIsData(fat.g, boot, d, stream.data);
      if r.Err? {
        return false, [];
      }
      GrownChain(t, fat.T(), cs, added, fat.g.Last());
      FirstCluster(fat.T(), cs, fat.g.Last());
      assert Grew(cs, t, cs + added, fat.T(), added, fat.g.Last());
      hide Grew;
      AdoptRuns(runs', added, count, r.value);
      ok := true;
    }

    /** The fields after an allocation: runs, ends and sizes. */
    method AdoptRuns(runs': seq<Run>, ghost added: seq<nat>, count: nat, last: nat)
      requires Mounted() && Positive(runs) && Positive(runs') && count > 0 && |added| == count
      requires (if Cs() == [] then start == 0 else start == Cs()[0] && start != 0)
      requires Flatten(runs') == Cs() + added && IsChain(fat.T(), Cs() + added, fat.g.Last())
      requires size == boot.Bytes(|Cs()|) && filesize <= size
      modifies this`runs, this`start, this`end, this`nofat, this`size
      ensures Valid() && Cs() == old(Cs()) + added
      ensures nofat == (|runs| == 1)
      ensures size == old(size) + boot.Bytes(count) && filesize <= size
    {
      hide Flatten, IsChain, Boot.Bytes, Mounted;
      FirstOf(runs');
      BytesAdd(boot, |Cs()|, |added|);
      runs := runs';
      end := last;
      if start == 0 {
        start := runs[0].start;
      }
      nofat := |runs| == 1;
      size := size + count * boot.cluster;
    }

    /** Where seek(offset, whence) aims. */
    function Target(offset: int, whence: int): int
      reads this`pos, this`size
    {
      if whence == 1 then pos + offset
      else if whence == 2 then (if size != 0 then size + offset else pos)
      else offset
    }

    /** seek: past the end it grows a writable chain, and stops at the end of one that is not. */
    method Seek(offset: int, whence: int) returns (ok: bool, ghost added: seq<nat>)
      requires Valid() && Target(offset, whence) >= 0
      modifies this`runs, this`start, this`end, this`nofat, this`size
      modifies this`pos, this`vcn, this`vco, this`lastVcn, this`lastLcn
      modifies fat`decoded, fat`freeMap, fat`freeClusters, fat`uncompacted, stream
      ensures Valid() && SameData(old(stream.data), stream.data, boot)
      ensures pos == if !writable then Min(old(Target(offset, whence)), old(size)) else old(Target(offset, whence))
      ensures !writable || old(Target(offset, whence)) <= old(size) ==>
        ok && added == [] && stream.data == old(stream.data)
      ensures Grew(old(Cs()), old(fat.T()), Cs(), fat.T(), added, fat.g.Last())
      ensures ok <==> !writable || old(Missing(Target(offset, whence))) <= old(fat.freeClusters)
      ensures |added| == if ok && writable then old(Missing(Target(offset, whence))) else 0
      ensures added != [] ==> old(size) < pos <= size < pos + boot.cluster
      ensures !ok ==> added == [] && size == old(size) < pos
      ensures added == [] ==> runs == old(runs)
      ensures fat.freeClusters == old(fat.freeClusters) - |added|
      ensures ok && pos < size ==> Located()
    {
      hide Flatten, IsChain, SameData, Grew, Fat.Valid, Chain.Valid;
      TableFits();
      Sized();
      hide Chain.Missing;
      NoneMissing();
      added := [];
      pos := Target(offset, whence);
      ok := true;
      SameDataSelf(stream.data, boot);
      NotGrown(Cs(), fat.T(), fat.g.Last());
      if pos > size {
        if writable {
          ok, added := GrowTo();
          if !ok {
            return;
          }
        } else {
          pos := size;
        }
      }
      Locate();
    }

    /**
     * seek before the start of the file: nothing refuses it. p, c and o are what pos, vcn and vco become, which here
     * hold no negative numbers. No run holds the cluster, so neither the stream nor the last cluster sought moves.
     */
    method SeekBelow(offset: int, whence: int) returns (p: int, c: int, o: nat, found: bool)
      requires boot.cluster > 0 && Target(offset, whence) < 0
      ensures p == Target(offset, whence) && p == c * boot.cluster + o && c < 0 && o < boot.cluster && !found
    {
      p := Target(offset, whence);
      c, o := p / boot.cluster, p % boot.cluster;
      FloorBelow(p, boot.cluster);
      found := false;
      var at, i := 0, 0;
      while i < |runs|
        invariant at >= 0 && !found
        decreases |runs| - i
      {
        var count := runs[i].len;
        if at <= c < at + count {
          found := true;
          break;
        }
        at := at + count;
        i := i + 1;
      }
    }

    /** A read from such a position p, in a file of one run: the bytes come from where the stream happens to stand. */
    method ReadBelow(p: int, n: int) returns (r: seq<Byte>, q: int)
      requires nofat && p < 0 && stream.pos < |stream.data|
      modifies stream`pos, stream`ready
      ensures q == p + Min(if n < 0 then filesize else n, filesize - p)
      ensures r == ReadAt(stream.data, old(stream.pos), q - p)
    {
      var want := if n < 0 then filesize else n;
      if p + want > filesize {
        want := filesize - p;
      }
      r, q := [], p + want;
      if want > 0 {
        r := stream.Read(want);
      }
    }

    /** Grows the chain just past the position. */
    method GrowTo() returns (ok: bool, ghost added: seq<nat>)
      requires Valid() && pos > size
      modifies this`runs, this`start, this`end, this`nofat, this`size
      modifies fat`decoded, fat`freeMap, fat`freeClusters, fat`uncompacted, stream
      ensures Valid() && SameData(old(stream.data), stream.data, boot)
      ensures Grew(old(Cs()), old(fat.T()), Cs(), fat.T(), added, fat.g.Last())
      ensures ok <==> old(Missing(pos)) <= old(fat.freeClusters)
      ensures |added| == if ok then old(Missing(pos)) else 0
      ensures ok <==> added != []
      ensures ok ==> pos <= size < pos + boot.cluster
      ensures !ok ==> size == old(size) && runs == old(runs)
      ensures fat.freeClusters == old(fat.freeClusters) - |added|
    {
      hide Flatten, IsChain, SameData, Fat.Valid, Grew, Boot.Bytes, CeilDiv, Chain.Valid;
      TableFits();
      Sized();
      GrowthFor(boot, |Cs()|, pos);
      var clusters := CeilDiv(pos, boot.cluster) - size / boot.cluster;
      ok, added := Extend(clusters);
    }

    /**
     * maxrun4len: bytes from the start of the cached cluster to the end of its run, as many clusters
     * as length asks for at most. It leaves the cache beyond them, for the seek that follows.
     */
    method MaxRun4Len(length: nat) returns (maxchunk: nat, ghost m: nat)
      requires Valid() && Located() && length > 0
      modifies this`lastVcn, this`lastLcn
      ensures m > 0 && Contiguous(boot, Cs(), vcn, m) && maxchunk == boot.Bytes(m)
    {
      var n := CeilDiv(length, boot.cluster);
      SomeClusters(length, boot.cluster);
      ChainFacts();
      var k, left := RunOfCluster(runs, lastLcn, vcn);
      var run := Min(n, left);
      maxchunk := run * boot.cluster;
      m := run;
      var next;
      if n < left {
        next := lastLcn + n;
      } else if k == |runs| - 1 {
        next := fat.g.Last();
      } else {
        next := runs[k + 1].start;
      }
      lastVcn, lastLcn := lastVcn + n, next;
    }

    /** What read(size) returns at a position: size is clamped to the file. */
    ghost function ReadSpec(contents: seq<Byte>, at: nat, size: int): seq<Byte>
      requires filesize <= |contents|
      reads this`filesize
    {
      var n := if size < 0 then filesize else size;
      var stop := if at + n > filesize then filesize else at + n;
      if at < stop then contents[at..stop] else []
    }

    /** read */
    method Read(size: int) returns (buf: seq<Byte>)
      requires Valid()
      modifies this`pos, this`vcn, this`vco, this`lastVcn, this`lastLcn, stream`pos, stream`ready
      ensures buf == ReadSpec(Contents(), old(pos), size) && pos == old(pos) + |buf|
    {
      hide Fat.Valid, Flatten, IsChain, Logical;
      var left := if size < 0 then filesize else size;
      if pos + left > filesize {
        left := filesize - pos;
        if left < 0 {
          left := 0;
        }
      }
      if left == 0 {
        return [];
      }
      Locate();
      if nofat {
        buf := ReadContiguous(left);
        return;
      }
      buf := ReadRuns(left);
    }

    /** read's one-shot path: the whole chain is one run. */
    method ReadContiguous(count: nat) returns (buf: seq<Byte>)
      requires Valid() && Located() && nofat && 0 < count && pos + count <= size
      modifies this`pos, stream`pos, stream`ready
      ensures pos == old(pos) + count && buf == Contents()[old(pos)..pos]
    {
      ghost var m := SingleRun(boot, runs, pos, count);
      buf := ReadHere(count, m);
    }

    /** The loop of read: chunk after chunk, none across a run. */
    method ReadRuns(count: nat) returns (buf: seq<Byte>)
      requires Valid() && Located() && 0 < count && pos + count <= size
      modifies this`pos, this`vcn, this`vco, this`lastVcn, this`lastLcn, stream`pos, stream`ready
      ensures pos == old(pos) + count && buf == Contents()[old(pos)..pos]
    {
      hide Valid, Located, Contents;
      var left := count;
      buf := [];
      ghost var whole := Contents();
      while left > 0
        invariant Valid() && 0 <= left <= count && pos == old(pos) + (count - left)
        invariant left > 0 ==> Located()
        invariant buf == whole[old(pos)..pos]
        decreases left
      {
        ghost var at := pos;
        var s := ReadStep(left);
        buf := buf + s;
        left := left - |s|;
        assert whole[old(pos)..at] + whole[at..pos] == whole[old(pos)..pos];
      }
    }

    /** One round of the loop. */
    method ReadStep(left: nat) returns (s: seq<Byte>)
      requires Valid() && Located() && 0 < left && pos + left <= size
      modifies this`pos, this`vcn, this`vco, this`lastVcn, this`lastLcn, stream`pos, stream`ready
      ensures 0 < |s| <= left && pos == old(pos) + |s| && s == Contents()[old(pos)..pos]
      ensures pos < size ==> Located()
    {
      hide Chain.Valid, Logical, Contiguous, Chain.AtPos, Boot.Bytes, Flatten;
      var n, m := NextChunk(left);
      s := ReadHere(n, m);
      Locate();
    }

    /** One read of the stream, from contiguous clusters of the chain. */
    method ReadHere(n: nat, ghost m: nat) returns (s: seq<Byte>)
      requires Valid() && AtPos() && 0 < n && pos + n <= size
      requires m > 0 && Contiguous(boot, Cs(), vcn, m) && vco + n <= boot.Bytes(m)
      modifies this`pos, stream`pos, stream`ready
      ensures |s| == n && pos == old(pos) + n && s == Contents()[old(pos)..pos]
    {
      hide Chain.Valid, Logical, Holds, InRange, Distinct;
      TableFits();
      ChainFacts();
      ReadChunk(stream.data, boot, fat.g.size, Cs(), pos, m, n);
      s := stream.Read(n);
      pos := pos + n;
    }

    /**
     * write: grows the chain to fit, stores s at the position and, when it grew a fragmented chain,
     * zeroes the rest of its last cluster. A contiguous chain is grown without that blanking.
     */
    method Write(s: seq<Byte>) returns (ok: bool, ghost added: seq<nat>)
      requires Valid()
      modifies this`runs, this`start, this`end, this`nofat, this`size, this`filesize
      modifies this`pos, this`vcn, this`vco, this`lastVcn, this`lastLcn
      modifies fat`decoded, fat`freeMap, fat`freeClusters, fat`uncompacted, stream
      ensures Valid()
      ensures ok <==> s == [] || old(Missing(pos + |s|)) <= old(fat.freeClusters)
      ensures |added| == if ok && s != [] then old(Missing(pos + |s|)) else 0
      ensures fat.freeClusters == old(fat.freeClusters) - |added|
      ensures Grew(old(Cs()), old(fat.T()), Cs(), fat.T(), added, fat.g.Last())
      ensures InRange(added, fat.g.size)
      ensures if ok && s != [] then
          Stored(old(State()), State(), s, Logical(old(stream.data), boot, fat.g.size, added), added != [] && !nofat)
        else State() == old(State())
      ensures if added == [] then runs == old(runs) else nofat == (|runs| == 1)
      ensures OnlyChain(old(stream.data), stream.data, boot, fat.g.size, Cs())
    {
      ghost var d := stream.data;
      SameDataOnly(d, d, boot, fat.g.size, Cs());
      if s == [] {
        return true, [];
      }
      hide Logical, OnlyChain, SameData, Grew, Flatten, Splice, OnDisk, Fat.Valid, Holds, CeilDiv, InRange;
      hide Stored, Mounted;
      ghost var f := State();
      var newAllocated := pos + |s| > size;
      ok, added := GrowToFit(|s|);
      SameDataOnly(d, stream.data, boot, fat.g.size, Cs());
      if !ok {
        return;
      }
      ghost var e, grown := stream.data, State();
      StoreGrown(s, newAllocated);
      OnlyChainTrans(d, e, stream.data, boot, fat.g.size, Cs());
      StoredAfterGrowth(f, grown, State(), s, Logical(d, boot, fat.g.size, added), newAllocated && !nofat);
    }

    /** Stores s in a chain long enough and blanks the tip of its new clusters. */
    method StoreGrown(s: seq<Byte>, newAllocated: bool)
      requires Valid() && s != [] && pos + |s| <= size
      requires newAllocated ==> size < pos + |s| + boot.cluster
      modifies this`filesize, this`pos, this`vcn, this`vco, this`lastVcn, this`lastLcn, stream
      ensures Valid() && fat.T() == old(fat.T())
      ensures Stored(old(State()), State(), s, [], newAllocated && !nofat)
      ensures OnlyChain(old(stream.data), stream.data, boot, fat.g.size, Cs())
    {
      hide Fat.Valid, Flatten, OnDisk, Mounted, Logical, Splice, OnlyChain;
      ghost var d := stream.data;
      ghost var whole := Contents();
      assert whole + [] == whole;
      WriteInside(s);
      if nofat {
        return;
      }
      ghost var e, base := stream.data, Contents();
      if newAllocated {
        if pos < size {
          Blank();
          OnlyChainTrans(d, e, stream.data, boot, fat.g.size, Cs());
        }
        BlankTail(base, pos);
      }
    }

    /** The growing part of write. */
    method GrowToFit(n: nat) returns (ok: bool, ghost added: seq<nat>)
      requires Valid() && n > 0
      modifies this`runs, this`start, this`end, this`nofat, this`size
      modifies fat`decoded, fat`freeMap, fat`freeClusters, fat`uncompacted, stream
      ensures Valid() && SameData(old(stream.data), stream.data, boot)
      ensures ok <==> old(Missing(pos + n)) <= old(fat.freeClusters)
      ensures |added| == if ok then old(Missing(pos + n)) else 0
      ensures Grew(old(Cs()), old(fat.T()), Cs(), fat.T(), added, fat.g.Last())
      ensures ok ==> pos + n <= size
      ensures fat.freeClusters == old(fat.freeClusters) - |added|
      ensures added != [] ==> pos + n > old(size) && nofat == (|runs| == 1) && size < pos + n + boot.cluster
      ensures ok && pos + n > old(size) ==> added != []
      ensures added == [] ==> runs == old(runs)
      ensures InRange(added, fat.g.size)
      ensures Contents() == old(Contents()) + Logical(old(stream.data), boot, fat.g.size, added)
    {
      hide Fat.Valid, Flatten, SameData, IsChain, Logical, Holds, InRange, Chain.OnDisk, Boot.Bytes;
      Sized();
      TableFits();
      ghost var d, cs, t := stream.data, Cs(), fat.T();
      added := [];
      ok := true;
      SameDataSelf(d, boot);
      NotGrown(cs, t, fat.g.Last());
      hide Grew;
      if pos + n > size {
        var reqb := pos + n - size;
        var reqc := CeilDiv(reqb, boot.cluster);
        Required(boot, reqb);
        hide CeilDiv, Boot.Bytes;
        ok, added := Extend(reqc);
      }
      TableFits();
      GrewChain(cs, t, Cs(), fat.T(), added, fat.g.Last());
      GrownContents(d, cs, added);
    }

    /** The bytes of the chain after its growth. */
    lemma GrownContents(d: seq<Byte>, cs: seq<nat>, added: seq<nat>)
      requires Valid() && SameData(d, stream.data, boot) && Cs() == cs + added
      ensures Holds(d, boot, fat.g.size) && InRange(cs, fat.g.size) && InRange(added, fat.g.size)
      ensures Contents() == Logical(d, boot, fat.g.size, cs) + Logical(d, boot, fat.g.size, added)
    {
      hide IsChain, Fat.Valid, Flatten, InRange, Holds, SameData, Distinct;
      ChainFacts();
      BothInRange(cs, added, fat.g.size);
      HeldBefore(d, stream.data, boot, fat.g.size);
      SameDataLogical(d, stream.data, boot, fat.g.size, cs + added);
      LogicalAppend(d, boot, fat.g.size, cs, added);
    }

    /** The storing part of write, once the chain is long enough. */
    method WriteInside(s: seq<Byte>)
      requires Valid() && s != [] && pos + |s| <= size
      modifies this`filesize, this`pos, this`vcn, this`vco, this`lastVcn, this`lastLcn, stream
      ensures Valid() && fat.T() == old(fat.T())
      ensures pos == old(pos) + |s| && filesize == Max(old(filesize), pos)
      ensures Contents() == Splice(old(Contents()), old(pos), s)
      ensures OnlyChain(old(stream.data), stream.data, boot, fat.g.size, Cs())
      ensures !nofat && pos < size ==> Located()
    {
      hide Flatten, IsChain, Holds, InRange, Logical, Splice, OnlyChain, Fat.Valid;
      Locate();
      if nofat {
        WriteContiguous(s);
      } else {
        WriteRuns(s);
      }
      filesize := Max(filesize, pos);
    }

    /** write's one-shot path: the whole chain is one run. */
    method WriteContiguous(s: seq<Byte>)
      requires Valid() && Located() && nofat && s != [] && pos + |s| <= size
      modifies this`pos, stream
      ensures Valid() && fat.T() == old(fat.T())
      ensures pos == old(pos) + |s|
      ensures Contents() == Splice(old(Contents()), old(pos), s)
      ensures OnlyChain(old(stream.data), stream.data, boot, fat.g.size, Cs())
    {
      ghost var m := SingleRun(boot, runs, pos, |s|);
      WriteHere(s, m);
      pos := pos + |s|;
    }

    /** One write of the stream, to contiguous clusters of the chain. */
    method WriteHere(s: seq<Byte>, ghost m: nat)
      requires Valid() && AtPos() && s != [] && pos + |s| <= size
      requires m > 0 && Contiguous(boot, Cs(), vcn, m) && vco + |s| <= boot.Bytes(m)
      modifies stream
      ensures Valid() && fat.T() == old(fat.T())
      ensures Contents() == Splice(old(Contents()), pos, s)
      ensures OnlyChain(old(stream.data), stream.data, boot, fat.g.size, Cs())
    {
      ghost var d, t, whole := stream.data, fat.T(), Contents();
      ChainFacts();
      ghost var e := Overwrite(d, stream.pos, s);
      WriteChunk(d, boot, fat.g.size, Cs(), pos, m, s, e);
      FatUntouched(fat.g, d, e, boot.dataoffs);
      assert Rewritten(d, t, whole, pos, s, e);
      hide *;
      stream.Write(s);
      RewrittenIsValid(d, t, whole, pos, s);
    }

    /** State e of the volume is d with s stored at p of this file, the tables as they were. */
    ghost predicate Rewritten(d: seq<Byte>, t: seq<nat>, whole: seq<Byte>, p: nat, s: seq<Byte>, e: seq<Byte>)
      reads this`runs, this`start, this`size, this`nofat, this`filesize
      reads fat`decoded, fat`freeMap, fat`freeClusters, fat`uncompacted
    {
      && fat.stream == stream && fat.g.offset2 + fat.g.ByteLen() <= boot.dataoffs
      && fat.g.Fits(e) && fat.g.Mirrored(e) && fat.g.Table(e) == t && |t| == fat.g.size + 2
      && (forall i :: i in fat.decoded ==> 2 <= i < fat.g.size + 2 && fat.decoded[i] == t[i])
      && fat.MapOk() && fat.Free() == ZeroSet(t)
      && OnDisk(t) && Holds(e, boot, fat.g.size) && InRange(Cs(), fat.g.size)
      && p + |s| <= |whole| && Logical(e, boot, fat.g.size, Cs()) == Splice(whole, p, s)
      && OnlyChain(d, e, boot, fat.g.size, Cs())
    }

    lemma RewrittenIsValid(d: seq<Byte>, t: seq<nat>, whole: seq<Byte>, p: nat, s: seq<Byte>)
      requires Rewritten(d, t, whole, p, s, stream.data)
      ensures Valid() && fat.T() == t
      ensures p + |s| <= |whole| && Contents() == Splice(whole, p, s)
      ensures OnlyChain(d, stream.data, boot, fat.g.size, Cs())
    {
    }

    /** Zeroes the last cluster from the position on. */
    method Blank()
      requires Valid() && Located() && pos < size < pos + boot.cluster
      modifies stream
      ensures Valid() && fat.T() == old(fat.T())
      ensures Contents() == Splice(old(Contents()), pos, Zeros(size - pos))
      ensures OnlyChain(old(stream.data), stream.data, boot, fat.g.size, Cs())
    {
      hide Chain.Valid, Flatten, Logical, Splice, OnlyChain, Contiguous, Boot.Bytes;
      Sized();
      OffsetInside();
      TipInside(boot, |Cs()|, pos);
      OneCluster(boot, Cs(), vcn);
      SomeZeros(size - pos);
      WriteHere(Zeros(size - pos), 1);
    }

    lemma SomeZeros(n: nat)
      requires n > 0
      ensures |Zeros(n)| == n && Zeros(n) != []
    {
    }

    /** The loop of write: chunk after chunk, none across a run. */
    method WriteRuns(s: seq<Byte>)
      requires Valid() && Located() && s != [] && pos + |s| <= size
      modifies this`pos, this`vcn, this`vco, this`lastVcn, this`lastLcn, stream
      ensures Valid() && fat.T() == old(fat.T())
      ensures pos == old(pos) + |s|
      ensures Contents() == Splice(old(Contents()), old(pos), s)
      ensures OnlyChain(old(stream.data), stream.data, boot, fat.g.size, Cs())
      ensures pos < size ==> Located()
    {
      hide *;
      TableFits();
      var i := 0;
      ghost var whole, d, t := Contents(), stream.data, fat.T();
      StartWriting(whole, d, t);
      assert s[..0] == [] && s[..|s|] == s;
      while i < |s|
        invariant 0 <= i <= |s| && Writing(whole, d, t, old(pos), s[..i])
        decreases |s| - i
      {
        var n := WriteRound(s, i, whole, d, t, old(pos));
        i := i + n;
      }
      AllWritten(whole, d, t, old(pos), s);
    }

    /** Inside the clusters none is missing. */
    lemma NoneMissing()
      requires Valid()
      ensures boot.cluster > 0 && 0 <= fat.freeClusters
      ensures forall stop: nat :: stop <= size ==> Missing(stop) == 0
    {
      Sized();
    }

    lemma Sized()
      requires Valid()
      ensures boot.cluster > 0 && size == boot.Bytes(|Cs()|) && 0 <= fat.freeClusters
    {
      hide Flatten, IsChain;
    }

    lemma TableFits()
      requires Valid()
      ensures fat.stream == stream && fat.g.Fits(stream.data) && Holds(stream.data, boot, fat.g.size)
    {
    }

    lemma StartWriting(whole: seq<Byte>, d: seq<Byte>, t: seq<nat>)
      requires Valid() && Located() && pos <= size && whole == Contents() && d == stream.data && t == fat.T()
      ensures Writing(whole, d, t, pos, [])
    {
      SameDataOnly(d, d, boot, fat.g.size, Cs());
      SpliceNothing(whole, pos);
    }

    lemma AllWritten(whole: seq<Byte>, d: seq<Byte>, t: seq<nat>, p: nat, s: seq<Byte>)
      requires Writing(whole, d, t, p, s)
      ensures Valid() && fat.T() == t && pos == p + |s| && (pos < size ==> Located())
      ensures Contents() == Splice(whole, p, s) && OnlyChain(d, stream.data, boot, fat.g.size, Cs())
    {
    }

    /** The loop of write after storing done at p. */
    ghost predicate Writing(whole: seq<Byte>, d: seq<Byte>, t: seq<nat>, p: nat, done: seq<Byte>)
      reads this`runs, this`start, this`size, this`nofat, this`filesize
      reads this`pos, this`vcn, this`vco, this`lastVcn, this`lastLcn, stream`pos, stream`ready
      reads fat`decoded, fat`freeMap, fat`freeClusters, fat`uncompacted, stream`data
    {
      && Valid() && fat.T() == t && pos == p + |done| && pos <= size
      && (pos < size ==> Located())
      && p + |done| <= |whole| && Contents() == Splice(whole, p, done)
      && OnlyChain(d, stream.data, boot, fat.g.size, Cs())
    }

    method WriteRound(s: seq<Byte>, i: nat, ghost whole: seq<Byte>, ghost d: seq<Byte>, ghost t: seq<nat>, ghost p: nat)
      returns (n: nat)
      requires i < |s| && p + |s| <= size && |whole| == size && Writing(whole, d, t, p, s[..i])
      modifies this`pos, this`vcn, this`vco, this`lastVcn, this`lastLcn, stream
      ensures 0 < n <= |s| - i && Writing(whole, d, t, p, s[..i + n])
    {
      ghost var e, cs := stream.data, Cs();
      hide Fat.Valid, Flatten, OnDisk, Mounted, Logical, Splice, OnlyChain, Located;
      n := WriteStep(s[i..]);
      OnlyChainTrans(d, e, stream.data, boot, fat.g.size, cs);
      SpliceMore(whole, p, s, i, n);
    }

    /** One round of the loop. */
    method WriteStep(s: seq<Byte>) returns (n: nat)
      requires Valid() && Located() && s != [] && pos + |s| <= size
      modifies this`pos, this`vcn, this`vco, this`lastVcn, this`lastLcn, stream
      ensures Valid() && fat.T() == old(fat.T())
      ensures 0 < n <= |s| && pos == old(pos) + n
      ensures Contents() == Splice(old(Contents()), old(pos), s[..n])
      ensures OnlyChain(old(stream.data), stream.data, boot, fat.g.size, Cs())
      ensures pos < size ==> Located()
    {
      hide Chain.Valid, Logical, Splice, OnlyChain, Contiguous, Chain.AtPos, Boot.Bytes, Flatten;
      TableFits();
      ghost var m;
      n, m := NextChunk(|s|);
      WriteHere(s[..n], m);
      pos := pos + n;
      Locate();
    }

    /** How much of a transfer of left bytes one chunk takes, and the clusters it lies in. */
    method NextChunk(left: nat) returns (n: nat, ghost m: nat)
      requires Valid() && Located() && left > 0
      modifies this`lastVcn, this`lastLcn
      ensures 0 < n <= left && m > 0 && AtPos() && Contiguous(boot, Cs(), vcn, m) && vco + n <= boot.Bytes(m)
    {
      hide Chain.Valid, Flatten, Contiguous, Boot.Bytes, Chain.AtPos;
      OffsetInside();
      var chunk;
      chunk, m := MaxRun4Len(left);
      ChunkProgress(boot, m, vco);
      n := Min(left, chunk - vco);
    }

    lemma OffsetInside()
      requires AtPos()
      ensures boot.cluster > 0 && vco < boot.cluster
    {
    }

    /**
     * trunc: keeps the clusters up to the position's and frees the rest, last run first. The freed
     * clusters enter the free map but not the counter. True means there was nothing to free.
     */
    method Trunc() returns (nothing: bool)
      requires Valid() && pos < size
      modifies this`size, this`filesize, this`runs, this`nofat
      modifies fat`decoded, fat`freeMap, fat`freeClusters, fat`uncompacted, stream
      ensures Valid() && SameData(old(stream.data), stream.data, boot)
      ensures nothing <==> boot.Vcn(pos) + 1 == |old(Cs())|
      ensures nothing ==> State() == old(State()) && fat.T() == old(fat.T()) && runs == old(runs)
      ensures !nothing ==>
        && CutAt(old(fat.T()), fat.T(), old(Cs()), boot.Vcn(pos) + 1, fat.g.Last())
        && State() == Truncated(old(State()), boot)
      ensures fat.freeClusters == old(fat.freeClusters)
      ensures |fat.Free()| + |Cs()| == old(|fat.Free()| + |Cs()|)
    {
      hide Flatten, IsChain, CutAt, Fat.Free;
      ghost var d, t, cs := stream.data, fat.T(), Cs();
      SameDataSelf(d, boot);
      PositionBound(boot, |cs|, pos);
      WholeClusters(boot, |cs|);
      KeepsPosition(boot, pos);
      var x := pos / boot.cluster;
      var n := CeilDiv(size, boot.cluster) - x - 1;
      assert n == |cs| - (x + 1) && x == boot.Vcn(pos);
      hide CeilDiv, Boot.Vcn;
      if n == 0 {
        return true;
      }
      CutTo(x + 1, n);
      nothing := false;
    }

    /** Frees the last n clusters, keeping the first ones. */
    method CutTo(keep: nat, n: nat)
      requires Valid() && 0 < n && 0 < keep && keep + n == |Cs()| && pos <= boot.Bytes(keep)
      modifies this`size, this`filesize, this`runs, this`nofat
      modifies fat`decoded, fat`freeMap, fat`freeClusters, fat`uncompacted, stream
      ensures Valid() && SameData(old(stream.data), stream.data, boot)
      ensures CutAt(old(fat.T()), fat.T(), old(Cs()), keep, fat.g.Last())
      ensures boot.Bytes(keep) <= |old(Contents())|
      ensures State() == FileState(old(Cs())[..keep], old(Contents())[..boot.Bytes(keep)], pos, pos)
      ensures fat.freeClusters == old(fat.freeClusters)
      ensures |fat.Free()| == |old(fat.Free())| + n
    {
      hide IsChain, InRange, Holds, Released, Boot.Vcn, CeilDiv, ZeroSet;
      ghost var d, t, cs, bytes := stream.data, fat.T(), Cs(), Contents();
      PrefixContents(d, cs, keep);
      ghost var kept := Logical(d, boot, fat.g.size, cs[..keep]);
      assert WasValid(d, t, cs, keep, kept);
      hide WasValid;
      size := keep * boot.cluster;
      filesize := pos;
      hide Fat.Valid, Flatten, Boot.Bytes, Logical, CutAt, SameData;
      FreeTail(n);
      nofat := |runs| == 1;
      CutIsValid(d, t, cs, keep, kept);
    }

    /** What CutTo starts from: the old bytes, table and chain, and the bytes it keeps. */
    ghost predicate WasValid(d: seq<Byte>, t: seq<nat>, cs: seq<nat>, keep: nat, kept: seq<Byte>)
      reads this`start
    {
      && fat.g.Valid() && fat.g.offset2 + fat.g.ByteLen() <= boot.dataoffs && fat.stream == stream
      && IsChain(t, cs, fat.g.Last()) && |t| <= fat.g.Last() && cs[0] == start
      && 0 < keep <= |cs| && Holds(d, boot, fat.g.size) && InRange(cs[..keep], fat.g.size)
      && kept == Logical(d, boot, fat.g.size, cs[..keep])
    }

    lemma CutIsValid(d: seq<Byte>, t: seq<nat>, cs: seq<nat>, keep: nat, kept: seq<Byte>)
      requires WasValid(d, t, cs, keep, kept)
      requires fat.Valid() && fat.g.SameOutside(d, stream.data)
      requires CutAt(t, fat.T(), cs, keep, fat.g.Last())
      requires Positive(runs) && Cs() == cs[..keep]
      requires size == keep * boot.cluster && filesize == pos <= size && nofat == (|runs| == 1)
      ensures Valid() && SameData(d, stream.data, boot)
      ensures State() == FileState(cs[..keep], kept, pos, pos)
    {
      OutsideIsData(fat.g, boot, d, stream.data);
      CutChain(t, fat.T(), cs, keep, fat.g.Last());
      SameDataLogical(d, stream.data, boot, fat.g.size, cs[..keep]);
    }

    /** The kept clusters hold the first bytes of the file. */
    lemma PrefixContents(d: seq<Byte>, cs: seq<nat>, keep: nat)
      requires Valid() && d == stream.data && cs == Cs() && keep <= |cs|
      ensures Holds(d, boot, fat.g.size) && InRange(cs[..keep], fat.g.size)
      ensures boot.Bytes(keep) <= size
      ensures Logical(d, boot, fat.g.size, cs[..keep]) == Contents()[..boot.Bytes(keep)]
    {
      ChainFacts();
      assert cs == cs[..keep] + cs[keep..];
      forall k | 0 <= k < |cs[keep..]|
        ensures 2 <= cs[keep..][k] < fat.g.size + 2
      {
        assert cs[keep..][k] == cs[keep + k];
      }
      LogicalAppend(d, boot, fat.g.size, cs[..keep], cs[keep..]);
      Mono(keep, |cs|, boot.cluster);
    }

    /** The loop of trunc: pops runs from the end until n clusters are freed. */
    method FreeTail(n: nat)
      requires fat.stream == stream && fat.Valid() && Positive(runs)
      requires IsChain(fat.T(), Cs(), fat.g.Last()) && 0 < n < |Cs()|
      modifies this`runs
      modifies fat`decoded, fat`freeMap, fat`freeClusters, fat`uncompacted, stream
      ensures fat.Valid() && fat.g.SameOutside(old(stream.data), stream.data)
      ensures Positive(runs) && Cs() == old(Cs())[..|old(Cs())| - n]
      ensures CutAt(old(fat.T()), fat.T(), old(Cs()), |old(Cs())| - n, fat.g.Last())
      ensures fat.freeClusters == old(fat.freeClusters)
      ensures |fat.Free()| == |old(fat.Free())| + n
    {
      hide Flatten, Positive, Released;
      ghost var t, cs, d := fat.T(), Cs(), stream.data;
      ghost var k, free, counter := |cs|, |fat.Free()|, fat.freeClusters;
      var left := n;
      NothingFreed(t, cs);
      assert Freeing(d, t, cs, |cs| - n, k, free, counter);
      hide Freeing;
      while left > 0
        invariant 0 <= left && k - left == |cs| - n
        invariant Freeing(d, t, cs, |cs| - n, k, free, counter)
        decreases left
      {
        var freed := FreeRound(left, d, t, cs, k, free, counter);
        left := left - freed;
        k := k - freed;
      }
      AllFreed(d, t, cs, k, free, counter);
    }

    /** The loop of trunc when the clusters of cs from k on are free, down to keep. */
    ghost predicate Freeing(d: seq<Byte>, t: seq<nat>, cs: seq<nat>, keep: nat, k: nat, free: nat, counter: int)
      reads this`runs
      reads fat`decoded, fat`freeMap, fat`freeClusters, fat`uncompacted, stream`data
    {
      && fat.stream == stream && fat.Valid() && fat.g.SameOutside(d, stream.data)
      && IsChain(t, cs, fat.g.Last()) && 0 < keep <= k <= |cs|
      && Positive(runs) && Flatten(runs) == cs[..k]
      && (if k > keep then Released(t, fat.T(), cs[k..]) else CutAt(t, fat.T(), cs, keep, fat.g.Last()))
      && fat.freeClusters == counter && |fat.Free()| == free + (|cs| - k)
    }

    lemma AllFreed(d: seq<Byte>, t: seq<nat>, cs: seq<nat>, k: nat, free: nat, counter: int)
      requires Freeing(d, t, cs, k, k, free, counter)
      ensures fat.Valid() && fat.g.SameOutside(d, stream.data)
      ensures Positive(runs) && Cs() == cs[..k] && CutAt(t, fat.T(), cs, k, fat.g.Last())
      ensures fat.freeClusters == counter && |fat.Free()| == free + (|cs| - k)
    {
    }

    method FreeRound(left: nat, ghost d: seq<Byte>, ghost t: seq<nat>, ghost cs: seq<nat>, ghost k: nat,
                     ghost free: nat, ghost counter: int)
      returns (freed: nat)
      requires 0 < left < k && Freeing(d, t, cs, k - left, k, free, counter)
      modifies this`runs
      modifies fat`decoded, fat`freeMap, fat`freeClusters, fat`uncompacted, stream
      ensures 0 < freed <= left && Freeing(d, t, cs, k - left, k - freed, free, counter)
    {
      ghost var e := stream.data;
      hide Fat.Valid, Flatten, Released, CutAt, IsChain, Positive, Geometry.SameOutside;
      freed := FreeLast(left, t, cs, k);
      fat.g.SameOutsideTrans(d, e, stream.data);
    }

    /** One round of the loop: the last run goes, or its tail does. */
    method FreeLast(left: nat, ghost t: seq<nat>, ghost cs: seq<nat>, ghost k: nat) returns (freed: nat)
      requires fat.stream == stream && fat.Valid() && Positive(runs)
      requires IsChain(t, cs, fat.g.Last()) && 0 < left < k <= |cs| && Flatten(runs) == cs[..k]
      requires Released(t, fat.T(), cs[k..])
      modifies this`runs
      modifies fat`decoded, fat`freeMap, fat`freeClusters, fat`uncompacted, stream
      ensures fat.Valid() && fat.g.SameOutside(old(stream.data), stream.data)
      ensures 0 < freed <= left && Positive(runs) && Flatten(runs) == cs[..k - freed]
      ensures freed < left ==> Released(t, fat.T(), cs[k - freed..])
      ensures freed == left ==> CutAt(t, fat.T(), cs, k - left, fat.g.Last())
      ensures fat.freeClusters == old(fat.freeClusters)
      ensures |fat.Free()| == |old(fat.Free())| + freed
    {
      ghost var t0 := fat.T();
      hide Fat.Valid, Flatten, IsChain, Released, CutAt, Cleared, ClearedTo, Positive, ZeroSet;
      ChainDistinct(t, cs, fat.g.Last());
      var s, c;
      freed, s, c, runs := PopLast(runs, left, cs, k);
      TailInUse(t, t0, cs, fat.g.Last(), k, s, freed);
      if freed < left {
        fat.ClearRun(s, freed);
        TailCleared(t, t0, cs, fat.g.Last(), k, s, freed, fat.T());
      } else {
        fat.ClearAndEnd(s, freed, c);
        TailCut(t, t0, cs, fat.g.Last(), k, s, freed, fat.T());
      }
    }
  }

  /**
   * popitem and what is put back: the run [s, s+freed) to clear, the cluster c before it in the
   * chain, and the runs that stay.
   */
  method PopLast(runs: seq<Run>, left: nat, ghost cs: seq<nat>, ghost k: nat)
    returns (freed: nat, s: nat, c: nat, runs': seq<Run>)
    requires Positive(runs) && Distinct(cs) && 0 < left < k <= |cs| && Flatten(runs) == cs[..k]
    ensures 0 < freed <= left && At(cs, k - freed, freed, s)
    ensures Positive(runs') && Flatten(runs') == cs[..k - freed]
    ensures freed == left ==> c == cs[k - freed - 1]
  {
    PopRun(runs, cs, k);
    hide Flatten, Distinct;
    var l := runs[|runs| - 1];
    runs' := runs[..|runs| - 1];
    if left >= l.len {
      freed, s, c := l.len, l.start, 0;
      if left == l.len {
        PopRun(runs', cs, k - l.len);
        var p := runs'[|runs'| - 1];
        c := p.start + p.len - 1;
      }
    } else {
      SplitRun(runs', cs, k, l, left);
      freed, s, c := left, l.start + l.len - left, l.start + l.len - left - 1;
      runs' := Put(runs', l.start, l.len - left);
    }
  }

  lemma PositionBound(b: Boot, n: nat, pos: nat)
    requires b.cluster > 0
    ensures pos < b.Bytes(n) ==> b.Vcn(pos) < n
  {
    if pos < n * b.cluster {
      DivBound(pos, n, b.cluster);
    }
  }

  /** Walks the run list to cluster vcn of the chain. */
  method ClusterOf(runs: seq<Run>, vcn: nat) returns (found: bool, lcn: nat)
    ensures found <==> vcn < |Flatten(runs)|
    ensures found ==> lcn == Flatten(runs)[vcn]
  {
    var v := 0;
    for k := 0 to |runs|
      invariant v == |Flatten(runs[..k])| && v <= vcn
    {
      FlattenAt(runs, k);
      FlattenNext(runs, k);
      if v <= vcn < v + runs[k].len {
        FlattenIndex(runs, k, vcn - v);
        return true, runs[k].start + vcn - v;
      }
      v := v + runs[k].len;
    }
    assert runs[..|runs|] == runs;
    found, lcn := false, 0;
  }

  /** The clusters _get_frags maps: those of the chain, and after them an end mark other than the driver's. */
  ghost function MappedAs(t: seq<nat>, cs: seq<nat>, low: nat, last: nat): seq<nat>
    requires IsChain(t, cs, low)
  {
    var mark := EndOf(t, cs, low);
    if mark == last then cs else cs + Interval(mark, StrayLen(mark, last))
  }

  /** Only slots of 32 bits have room for a foreign mark. */
  lemma ForeignOnly32(g: Geometry, d: seq<Byte>, cs: seq<nat>)
    requires g.Fits(d) && IsChain(g.Table(d), cs, g.Last())
    ensures g.bits != 32 ==> MappedAs(g.Table(d), cs, g.Last(), g.Last()) == cs
  {
    var c := cs[|cs| - 1];
    g.TableAt(d, c);
  }

  /** One cluster that ends in 0x0FFF_FFFF is such a chain. */
  lemma ForeignReached(g: Geometry)
    requires g.bits == 32
    ensures IsChain([0, 0, 0x0FFF_FFFF], [2], g.Last())
    ensures MappedAs([0, 0, 0x0FFF_FFFF], [2], g.Last(), g.Last()) == [2, 0x0FFF_FFFF]
  {
    var t: seq<nat> := [0, 0, 0x0FFF_FFFF];
    var cs: seq<nat> := [2];
    assert IsCluster(t, cs[0]) && t[cs[0]] == 0x0FFF_FFFF;
  }

  /** Where _get_frags goes on after k clusters: at the next one, or at a mark it does not know. */
  ghost predicate NextRun(t: seq<nat>, cs: seq<nat>, low: nat, last: nat, k: nat, at: nat)
    requires IsChain(t, cs, low)
  {
    if k < |cs| then at == cs[k] && IsChain(t, cs[k..], low) else at == EndOf(t, cs, low) != last
  }

  lemma RunAhead(t: seq<nat>, cs: seq<nat>, low: nat, last: nat, k: nat, at: nat)
    requires IsChain(t, cs, low) && |t| < low && |t| <= last && k <= |cs| && NextRun(t, cs, low, last, k, at)
    ensures k < |cs| ==> IsChain(t, cs[k..], low) && cs[k..][0] == at < low
    ensures k == |cs| ==> at >= low
  {
    assert k < |cs| ==> IsCluster(t, cs[k]);
  }

  /** One run of _get_frags: the run is new, and the rest starts elsewhere. */
  lemma NextFrag(t: seq<nat>, cs: seq<nat>, low: nat, last: nat, k: nat, at: nat, n: nat, next: nat, runs: seq<Run>)
    requires IsChain(t, cs, low) && |t| < low && |t| <= last && Distinct(cs)
    requires k < |cs| && at == cs[k] && 0 < n <= |cs| - k && cs[k..][..n] == Interval(at, n)
    requires Follows(t, cs[k..], n, next)
    requires Positive(runs) && Flatten(runs) == cs[..k]
    ensures Positive(Put(runs, at, n)) && Flatten(Put(runs, at, n)) == cs[..k + n]
    ensures next == last || next == at + n - 1 ==> cs[..k + n] == MappedAs(t, cs, low, last)
    ensures next != last ==> NextRun(t, cs, low, last, k + n, next)
  {
    RunAt(cs, k, at, n);
    forall j | 0 <= j < k
      ensures cs[..k][j] != at
    {
      Differs(cs, j, k);
    }
    KeysInChain(runs, at);
    PutNew(runs, at, n);
    FlattenSnoc(runs, Run(at, n));
    assert cs[..k + n] == cs[..k] + cs[k..][..n];
    assert cs[k..][n - 1] == cs[k + n - 1] == at + n - 1 && IsCluster(t, cs[k + n - 1]);
    if k + n < |cs| {
      assert cs[k..][n] == cs[k + n] && IsCluster(t, cs[k + n]);
      Differs(cs, k + n - 1, k + n);
      ChainSuffix(t, cs, low, k + n);
    }
  }

  /** The run mapped for a mark that is not the driver's. */
  lemma StrayRun(t: seq<nat>, cs: seq<nat>, low: nat, last: nat, at: nat, runs: seq<Run>)
    requires IsChain(t, cs, low) && |t| < low && |t| <= last && at == EndOf(t, cs, low) != last
    requires Positive(runs) && Flatten(runs) == cs[..|cs|]
    ensures Positive(Put(runs, at, StrayLen(at, last)))
    ensures Flatten(Put(runs, at, StrayLen(at, last))) == MappedAs(t, cs, low, last)
  {
    hide Flatten, Put, Interval;
    assert cs[..|cs|] == cs;
    forall j | 0 <= j < |cs|
      ensures cs[j] != at
    {
      assert IsCluster(t, cs[j]);
    }
    KeysInChain(runs, at);
    PutNew(runs, at, StrayLen(at, last));
    FlattenSnoc(runs, Run(at, StrayLen(at, last)));
  }

  lemma FloorBelow(p: int, k: nat)
    requires p < 0 < k
    ensures p == p / k * k + p % k && p / k < 0
  {
    if p / k >= 0 {
      Mono(0, p / k, k);
    }
  }

  lemma NoneMapped()
    ensures Flatten([]) == [] && Positive([])
  {
  }

  lemma ChainSuffix(t: seq<nat>, cs: seq<nat>, last: nat, k: nat)
    requires IsChain(t, cs, last) && k < |cs|
    ensures IsChain(t, cs[k..], last)
  {
    var r := cs[k..];
    forall j | 0 <= j < |r| - 1
      ensures t[r[j]] == r[j + 1]
    {
      assert t[cs[k + j]] == cs[k + j + 1];
    }
  }

  lemma OutsideIsData(g: Geometry, b: Boot, d: seq<Byte>, e: seq<Byte>)
    requires g.Valid() && g.offset2 + g.ByteLen() <= b.dataoffs && g.SameOutside(d, e)
    ensures SameData(d, e, b)
  {
    forall k | b.dataoffs <= k < |d|
      ensures e[k] == d[k]
    {
      assert !g.InFats(k);
    }
  }

  lemma SameDataSelf(d: seq<Byte>, b: Boot)
    ensures SameData(d, d, b)
  {
  }

  lemma FirstOf(runs: seq<Run>)
    requires Positive(runs) && Flatten(runs) != []
    ensures runs != [] && Flatten(runs)[0] == runs[0].start
  {
    assert runs[..0] == [];
    FlattenIndex(runs, 0, 0);
  }

  lemma BytesAdd(b: Boot, n: nat, m: nat)
    ensures b.Bytes(n + m) == b.Bytes(n) + b.Bytes(m) && b.Bytes(m) == m * b.cluster
  {
    Spread(n, m, b.cluster);
  }

  /** The clusters a seek past the end asks for take the chain just beyond the position. */
  lemma GrowthFor(b: Boot, n: nat, pos: nat)
    requires b.cluster > 0 && pos > b.Bytes(n)
    ensures b.Bytes(n) / b.cluster == n
    ensures CeilDiv(pos, b.cluster) > n
    ensures pos <= b.Bytes(CeilDiv(pos, b.cluster)) < pos + b.cluster
    ensures b.Bytes(n) + b.Bytes(CeilDiv(pos, b.cluster) - n) == b.Bytes(CeilDiv(pos, b.cluster))
    ensures CeilDiv(pos, b.cluster) - n == CeilDiv(pos - b.Bytes(n), b.cluster)
  {
    FewerBy(pos, n, b.cluster);
    var k := b.cluster;
    var c := CeilDiv(pos, k);
    Digits(n, 0, k);
    Euclid(pos + k - 1, k);
    if c <= n {
      Mono(c, n, k);
    }
    BytesAdd(b, n, c - n);
  }

  lemma FewerBy(x: nat, n: nat, k: nat)
    requires k > 0 && x > n * k
    ensures CeilDiv(x, k) - n == CeilDiv(x - n * k, k)
  {
    var c, r := (x - n * k + k - 1) / k, (x - n * k + k - 1) % k;
    assert x + k - 1 == (c + n) * k + r by {
      assert x - n * k + k - 1 == c * k + r;
      assert (c + n) * k == c * k + n * k;
    }
    Digits(c + n, r, k);
  }

  lemma SomeClusters(length: nat, k: nat)
    requires k > 0 && length > 0
    ensures CeilDiv(length, k) > 0
  {
    Euclid(length + k - 1, k);
  }

  /** Finds the run that holds cluster lcn, which is cluster v of the chain, and what is left of it. */
  method RunOfCluster(runs: seq<Run>, lcn: nat, ghost v: nat) returns (k: nat, left: nat)
    requires v < |Flatten(runs)| && Flatten(runs)[v] == lcn && Distinct(Flatten(runs))
    ensures k < |runs| && 0 < left && v + left <= |Flatten(runs)|
    ensures forall j :: v <= j < v + left ==> Flatten(runs)[j] == lcn + (j - v)
  {
    k, left := 0, 0;
    assert runs[..|runs|] == runs;
    hide Flatten, Distinct;
    while k < |runs|
      invariant k <= |runs| && |Flatten(runs[..k])| <= v
    {
      FlattenAt(runs, k);
      FlattenNext(runs, k);
      ghost var a := |Flatten(runs[..k])|;
      if runs[k].start <= lcn < runs[k].start + runs[k].len {
        FlattenIndex(runs, k, lcn - runs[k].start);
        SameIndex(Flatten(runs), a + (lcn - runs[k].start), v);
        left := runs[k].start + runs[k].len - lcn;
        RestOfRun(runs, k, v, left);
        return;
      }
      PastRun(runs, k, v, lcn);
      k := k + 1;
    }
  }

  lemma PastRun(runs: seq<Run>, k: nat, v: nat, lcn: nat)
    requires k < |runs| && v < |Flatten(runs)| && Flatten(runs)[v] == lcn && |Flatten(runs[..k])| <= v
    requires !(runs[k].start <= lcn < runs[k].start + runs[k].len)
    ensures |Flatten(runs[..k])| + runs[k].len <= v
  {
    var j := v - |Flatten(runs[..k])|;
    if j < runs[k].len {
      FlattenIndex(runs, k, j);
    }
  }

  lemma RestOfRun(runs: seq<Run>, k: nat, v: nat, left: nat)
    requires k < |runs| && left <= runs[k].len && v == |Flatten(runs[..k])| + (runs[k].len - left)
    ensures v + left <= |Flatten(runs)|
    ensures forall j :: v <= j < v + left ==> Flatten(runs)[j] == runs[k].start + (runs[k].len - left) + (j - v)
  {
    FlattenAt(runs, k);
    forall j | v <= j < v + left
      ensures Flatten(runs)[j] == runs[k].start + (runs[k].len - left) + (j - v)
    {
      FlattenIndex(runs, k, j - |Flatten(runs[..k])|);
    }
  }

  /** A chunk never ends before it starts: a run holds more than the offset into its first cluster. */
  lemma ChunkProgress(b: Boot, m: nat, vco: nat)
    requires b.cluster > 0 && m > 0 && vco < b.cluster
    ensures vco < b.Bytes(m)
  {
    Mono(1, m, b.cluster);
  }

  /** A chain of one run is contiguous from any position to its end. */
  lemma SingleRun(b: Boot, runs: seq<Run>, p: nat, n: nat) returns (m: nat)
    requires b.cluster > 0 && |runs| == 1 && 0 < n && p + n <= b.Bytes(|Flatten(runs)|)
    ensures m > 0 && Contiguous(b, Flatten(runs), b.Vcn(p), m) && b.Vco(p) + n <= b.Bytes(m)
  {
    var cs := Flatten(runs);
    assert runs[..0] == [];
    assert cs == Interval(runs[0].start, runs[0].len);
    PositionBound(b, |cs|, p);
    m := |cs| - b.Vcn(p);
    Euclid(p, b.cluster);
    BytesAdd(b, b.Vcn(p), m);
  }

  /** base with s at p, and after it zeroes if the tip is blanked. */
  ghost function Written(base: seq<Byte>, p: nat, s: seq<Byte>, blank: bool): seq<Byte>
    requires p + |s| <= |base|
  {
    if blank then Splice(base, p, s)[..p + |s|] + Zeros(|base| - (p + |s|)) else Splice(base, p, s)
  }

  /** Behind what a write stored all is zero exactly if the tip was blanked, or all was zero before. */
  lemma TipExactly(f: FileState, f': FileState, s: seq<Byte>, tail: seq<Byte>, blank: bool)
    requires Stored(f, f', s, tail, blank)
    ensures |f'.bytes| == |f.bytes + tail| && ((forall k :: f'.pos <= k < |f'.bytes| ==> f'.bytes[k] == 0) <==>
      blank || forall k {:trigger (f.bytes + tail)[k]} :: f'.pos <= k < |f'.bytes| ==> (f.bytes + tail)[k] == 0)
  {
    var base := f.bytes + tail;
    assert forall k :: f'.pos <= k < |base| ==> f'.bytes[k] == if blank then 0 else base[k];
  }

  /** A byte written to an empty file of one cluster: what the cluster held is behind it. */
  lemma TipReached() returns (f: FileState, f': FileState, tail: seq<Byte>)
    ensures Stored(f, f', [1], tail, false) && f'.bytes == [1, 7, 7, 7]
  {
    f, tail := FileState([], [], 0, 0), [7, 7, 7, 7];
    f' := FileState([2], [1, 7, 7, 7], 1, 1);
    assert [] + tail == tail && tail[1..] == [7, 7, 7];
  }

  /** Bytes written after the tables leave the tables alone. */
  lemma FatUntouched(g: Geometry, d: seq<Byte>, e: seq<Byte>, limit: nat)
    requires g.Fits(d) && g.Mirrored(d) && g.offset2 + g.ByteLen() <= limit
    requires SameBefore(d, e, limit)
    ensures g.Fits(e) && g.Mirrored(e) && g.Table(e) == g.Table(d)
  {
    g.TableFrame(d, e);
  }

  lemma Required(b: Boot, n: nat)
    requires b.cluster > 0 && n > 0
    ensures CeilDiv(n, b.cluster) > 0
    ensures n <= b.Bytes(CeilDiv(n, b.cluster)) < n + b.cluster
  {
    var k := b.cluster;
    SomeClusters(n, k);
    Euclid(n + k - 1, k);
  }

  /** The last bytes of a chain lie in its last cluster. */
  lemma TipInside(b: Boot, n: nat, p: nat)
    requires b.cluster > 0 && p < b.Bytes(n) < p + b.cluster
    ensures b.Vcn(p) == n - 1 && b.Vco(p) + (b.Bytes(n) - p) <= b.Bytes(1)
  {
    var k := b.cluster;
    BytesAdd(b, n - 1, 1);
    Digits(n - 1, p - (n - 1) * k, k);
  }

  lemma SpliceNothing(c: seq<Byte>, p: nat)
    requires p <= |c|
    ensures Splice(c, p, []) == c
  {
  }

  lemma SpliceMore(c: seq<Byte>, p: nat, s: seq<Byte>, i: nat, n: nat)
    requires i + n <= |s| && p + |s| <= |c|
    ensures Splice(Splice(c, p, s[..i]), p + i, s[i..][..n]) == Splice(c, p, s[..i + n])
  {
    var x := Splice(Splice(c, p, s[..i]), p + i, s[i..][..n]);
    var y := Splice(c, p, s[..i + n]);
    forall j | 0 <= j < |c|
      ensures x[j] == y[j]
    {
      SpliceAt(c, p, s[..i], j);
      SpliceAt(Splice(c, p, s[..i]), p + i, s[i..][..n], j);
      SpliceAt(c, p, s[..i + n], j);
    }
  }

  lemma BlankTail(c: seq<Byte>, p: nat)
    requires p <= |c|
    ensures Splice(c, p, Zeros(|c| - p)) == c[..p] + Zeros(|c| - p)
    ensures p == |c| ==> c == c[..p] + Zeros(|c| - p)
  {
  }

  lemma HeldBefore(d: seq<Byte>, e: seq<Byte>, b: Boot, clusters: nat)
    requires SameData(d, e, b) && Holds(e, b, clusters)
    ensures Holds(d, b, clusters)
  {
  }

  lemma OneCluster(b: Boot, cs: seq<nat>, v: nat)
    requires v < |cs|
    ensures Contiguous(b, cs, v, 1)
  {
  }

  lemma BothInRange(cs: seq<nat>, added: seq<nat>, size: nat)
    requires InRange(cs + added, size)
    ensures InRange(cs, size) && InRange(added, size)
  {
    var x := cs + added;
    forall k | 0 <= k < |cs| ensures 2 <= cs[k] < size + 2 {
      assert x[k] == cs[k];
    }
    forall k | 0 <= k < |added| ensures 2 <= added[k] < size + 2 {
      assert x[|cs| + k] == added[k];
    }
  }

  lemma NotGrown(cs: seq<nat>, t: seq<nat>, last: nat)
    ensures Grew(cs, t, cs, t, [], last)
  {
  }

  lemma GrewChain(cs: seq<nat>, t: seq<nat>, cs': seq<nat>, t': seq<nat>, added: seq<nat>, last: nat)
    requires Grew(cs, t, cs', t', added, last)
    ensures cs' == cs + added
  {
    assert cs + [] == cs;
  }

  ghost function Truncated(f: FileState, b: Boot): FileState
    requires b.cluster > 0
  {
    var keep := b.Vcn(f.pos) + 1;
    FileState(f.chain[..Min(keep, |f.chain|)], f.bytes[..Min(b.Bytes(keep), |f.bytes|)], f.pos, f.pos)
  }

  lemma WholeClusters(b: Boot, n: nat)
    requires b.cluster > 0
    ensures CeilDiv(b.Bytes(n), b.cluster) == n
  {
    Digits(n, b.cluster - 1, b.cluster);
  }

  /** Clusters i .. i+n-1 of the chain lie at s, s+1, ... */
  ghost predicate At(cs: seq<nat>, i: int, n: nat, s: nat) {
    0 <= i && i + n <= |cs| && forall j :: i <= j < i + n ==> cs[j] == s + (j - i)
  }

  lemma PopRun(runs: seq<Run>, cs: seq<nat>, k: nat)
    requires Positive(runs) && 0 < k <= |cs| && Flatten(runs) == cs[..k]
    ensures runs != []
    ensures var l := runs[|runs| - 1];
      && 0 < l.len <= k && Positive(runs[..|runs| - 1])
      && Flatten(runs[..|runs| - 1]) == cs[..k - l.len]
      && At(cs, k - l.len, l.len, l.start)
      && cs[k - 1] == l.start + l.len - 1
  {
    var z := |runs| - 1;
    var l := runs[z];
    var f := Flatten(runs[..z]);
    assert f + Interval(l.start, l.len) == cs[..k];
    assert |f| == k - l.len;
    PrefixAndRun(cs, k, f, l.start, l.len);
  }

  lemma PrefixAndRun(cs: seq<nat>, k: nat, f: seq<nat>, s: nat, n: nat)
    requires k <= |cs| && f + Interval(s, n) == cs[..k] && |f| == k - n
    ensures f == cs[..k - n] && At(cs, k - n, n, s)
  {
    assert f == (f + Interval(s, n))[..k - n] == cs[..k][..k - n];
    forall j | k - n <= j < k
      ensures cs[j] == s + (j - (k - n))
    {
      assert cs[j] == (f + Interval(s, n))[j] == Interval(s, n)[j - (k - n)];
    }
  }

  lemma SplitRun(front: seq<Run>, cs: seq<nat>, k: nat, l: Run, left: nat)
    requires Positive(front) && 0 < left < l.len <= k <= |cs| && Flatten(front) == cs[..k - l.len]
    requires At(cs, k - l.len, l.len, l.start) && Distinct(cs)
    ensures At(cs, k - left, left, l.start + l.len - left)
    ensures cs[k - left - 1] == l.start + l.len - left - 1
    ensures Positive(Put(front, l.start, l.len - left)) && Flatten(Put(front, l.start, l.len - left)) == cs[..k - left]
  {
    var a := k - l.len;
    forall j | 0 <= j < a
      ensures cs[..a][j] != l.start
    {
      Differs(cs, j, a);
    }
    KeysInChain(front, l.start);
    PutNew(front, l.start, l.len - left);
    FlattenSnoc(front, Run(l.start, l.len - left));
    assert cs[..k - left] == cs[..a] + Interval(l.start, l.len - left);
  }

  /** The clusters to clear, and the one before them, are in use. */
  lemma TailInUse(t: seq<nat>, t0: seq<nat>, cs: seq<nat>, last: nat, k: nat, s: nat, n: nat)
    requires 0 < n < k <= |cs|
    requires IsChain(t, cs, last) && |t| <= last && Released(t, t0, cs[k..])
    requires At(cs, k - n, n, s)
    ensures 2 <= s && s + n <= |t0|
    ensures forall x: nat :: InSpan(s, n, x) ==> x !in ZeroSet(t0)
    ensures IsCluster(t0, cs[k - n - 1]) && !InSpan(s, n, cs[k - n - 1]) && cs[k - n - 1] !in ZeroSet(t0)
  {
    ChainDistinct(t, cs, last);
    assert IsCluster(t, cs[k - n]) && IsCluster(t, cs[k - 1]);
    forall x: nat | InSpan(s, n, x)
      ensures x !in ZeroSet(t0)
    {
      assert cs[k - n + (x - s)] == x;
      StillInUse(t, t0, cs, last, k, k - n + (x - s));
    }
    StillInUse(t, t0, cs, last, k, k - n - 1);
    BeforeRun(cs, k - n, n, s);
  }

  lemma StillInUse(t: seq<nat>, t0: seq<nat>, cs: seq<nat>, last: nat, k: nat, j: nat)
    requires j < k <= |cs|
    requires IsChain(t, cs, last) && |t| <= last && Released(t, t0, cs[k..]) && Distinct(cs)
    ensures IsCluster(t0, cs[j]) && cs[j] !in ZeroSet(t0) && t0[cs[j]] == t[cs[j]]
  {
    ChainEntry(t, cs, last, j);
    NotInTail(cs, k, j);
  }

  lemma NotInTail(cs: seq<nat>, k: nat, j: nat)
    requires Distinct(cs) && j < k <= |cs|
    ensures cs[j] !in cs[k..]
  {
    forall i | 0 <= i < |cs[k..]|
      ensures cs[k..][i] != cs[j]
    {
      Differs(cs, j, k + i);
    }
  }

  lemma BeforeRun(cs: seq<nat>, i: nat, n: nat, s: nat)
    requires Distinct(cs) && 0 < i && At(cs, i, n, s)
    ensures !InSpan(s, n, cs[i - 1])
  {
    if InSpan(s, n, cs[i - 1]) {
      Differs(cs, i - 1, i + (cs[i - 1] - s));
    }
  }

  lemma TailCleared(t: seq<nat>, t0: seq<nat>, cs: seq<nat>, last: nat, k: nat, s: nat, n: nat, t1: seq<nat>)
    requires 0 < n < k <= |cs|
    requires IsChain(t, cs, last) && |t| <= last && Released(t, t0, cs[k..])
    requires At(cs, k - n, n, s) && Cleared(t0, t1, s, n)
    ensures Released(t, t1, cs[k - n..])
  {
    ChainDistinct(t, cs, last);
    var tail := cs[k - n..];
    forall i | 0 <= i < |tail|
      ensures IsCluster(t, tail[i]) && t1[tail[i]] == 0
    {
      TailEntry(t, t0, cs, last, k, s, n, i);
    }
    forall c | IsCluster(t, c) && c !in tail
      ensures t1[c] == t[c]
    {
      OutsideTail(cs, k, s, n, c);
    }
  }

  lemma TailEntry(t: seq<nat>, t0: seq<nat>, cs: seq<nat>, last: nat, k: nat, s: nat, n: nat, i: nat)
    requires 0 < n < k <= |cs|
    requires IsChain(t, cs, last) && Released(t, t0, cs[k..])
    requires At(cs, k - n, n, s) && i < |cs| - (k - n)
    ensures cs[k - n..][i] == cs[k - n + i] && IsCluster(t, cs[k - n + i])
    ensures InSpan(s, n, cs[k - n + i]) || t0[cs[k - n + i]] == 0
    ensures i >= n ==> cs[k - n + i] in cs[k..]
  {
    assert IsCluster(t, cs[k - n + i]);
    if i >= n {
      assert cs[k..][i - n] == cs[k - n + i];
    }
  }

  lemma OutsideTail(cs: seq<nat>, k: nat, s: nat, n: nat, c: nat)
    requires 0 < n < k <= |cs| && At(cs, k - n, n, s) && c !in cs[k - n..]
    ensures c !in cs[k..] && !InSpan(s, n, c)
  {
    var tail := cs[k - n..];
    forall i | 0 <= i < |cs[k..]|
      ensures cs[k..][i] != c
    {
      assert tail[n + i] == cs[k..][i];
    }
    if InSpan(s, n, c) {
      SpanInTail(cs, k, s, n, c);
    }
  }

  lemma SpanInTail(cs: seq<nat>, k: nat, s: nat, n: nat, c: nat)
    requires 0 < n < k <= |cs| && At(cs, k - n, n, s) && InSpan(s, n, c)
    ensures c in cs[k - n..]
  {
    assert cs[k - n..][c - s] == c;
  }

  lemma TailCut(t: seq<nat>, t0: seq<nat>, cs: seq<nat>, last: nat, k: nat, s: nat, n: nat, t2: seq<nat>)
    requires 0 < n < k <= |cs|
    requires IsChain(t, cs, last) && |t| <= last && Released(t, t0, cs[k..])
    requires At(cs, k - n, n, s) && ClearedTo(t0, t2, s, n, cs[k - n - 1], last)
    ensures CutAt(t, t2, cs, k - n, last)
  {
    ChainDistinct(t, cs, last);
    var end := cs[k - n - 1];
    forall j | k - n <= j < |cs|
      ensures t2[cs[j]] == 0
    {
      TailEntry(t, t0, cs, last, k, s, n, j - (k - n));
      Differs(cs, k - n - 1, j);
    }
    forall c | IsCluster(t, c) && c !in cs[k - n - 1..]
      ensures t2[c] == t[c]
    {
      assert cs[k - n - 1..] == [end] + cs[k - n..];
      OutsideTail(cs, k, s, n, c);
    }
  }

  lemma NothingFreed(t: seq<nat>, cs: seq<nat>)
    ensures Released(t, t, cs[|cs|..]) && cs[..|cs|] == cs
  {
    assert cs[|cs|..] == [];
  }

  lemma KeepsPosition(b: Boot, pos: nat)
    requires b.cluster > 0
    ensures pos < (b.Vcn(pos) + 1) * b.cluster == b.Bytes(b.Vcn(pos) + 1)
  {
    Euclid(pos, b.cluster);
    BytesAdd(b, b.Vcn(pos), 1);
  }

  lemma FirstCluster(t: seq<nat>, cs: seq<nat>, last: nat)
    ensures cs != [] && Clusters(t, cs) ==> cs[0] >= 2
  {
  }

  lemma StoredAfterGrowth(f: FileState, grown: FileState, f': FileState, s: seq<Byte>, tail: seq<Byte>, blank: bool)
    requires grown.bytes == f.bytes + tail && grown.filesize == f.filesize && grown.pos == f.pos
    requires Stored(grown, f', s, [], blank)
    ensures Stored(f, f', s, tail, blank)
  {
    assert grown.bytes + [] == grown.bytes;
  }
}
