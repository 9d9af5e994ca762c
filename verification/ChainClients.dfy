/** What a caller of the chain files may rely on, across operations and across files. */
module ChainClients {
  import opened Bytes
  import opened FatTable
  import opened FatChains
  import opened FatDriver
  import opened FatVolume
  import opened ClusterBytes
  import opened ChainFile

  /** Two files open on one volume, sharing no cluster. */
  ghost predicate Neighbours(a: Chain, b: Chain)
    reads a`runs, b`runs
  {
    a != b && a.fat == b.fat && a.stream == b.stream && a.boot == b.boot && Apart(a.Cs(), b.Cs())
  }

  /** Whatever is written to one file, every other file keeps its chain and all its bytes. */
  method WriteBeside(a: Chain, b: Chain, s: seq<Byte>) returns (ok: bool)
    requires a.Valid() && b.Valid() && Neighbours(a, b)
    modifies a, a.fat, a.stream
    ensures a.Valid() && b.Valid() && Neighbours(a, b)
    ensures b.State() == old(b.State())
  {
    ghost var d, t, cs, other, f := a.stream.data, a.fat.T(), a.Cs(), b.Cs(), b.State();
    b.ChainFacts();
    ghost var added;
    ok, added := a.Write(s);
    StaysApart(cs, t, a.Cs(), a.fat.T(), added, a.fat.g.Last(), other);
    OtherChainKept(d, a.stream.data, a.boot, a.fat.g.size, a.Cs(), other);
  }

  /** Truncating one file leaves every other file as it was. */
  method TruncBeside(a: Chain, b: Chain) returns (nothing: bool)
    requires a.Valid() && b.Valid() && Neighbours(a, b) && a.pos < a.size
    modifies a, a.fat, a.stream
    ensures a.Valid() && b.Valid() && Neighbours(a, b)
    ensures b.State() == old(b.State())
  {
    ghost var d, t, cs, other := a.stream.data, a.fat.T(), a.Cs(), b.Cs();
    b.ChainFacts();
    nothing := a.Trunc();
    CutApart(t, a.fat.T(), cs, other, a.fat.g.Last(), a.boot.Vcn(a.pos) + 1, nothing);
    SameDataLogical(d, a.stream.data, a.boot, a.fat.g.size, other);
  }

  /** Reading back what was just written. */
  method WriteThenRead(a: Chain, at: nat, s: seq<Byte>) returns (ok: bool, r: seq<Byte>)
    requires a.Valid() && at <= a.size
    modifies a, a.fat, a.stream
    ensures a.Valid()
    ensures ok ==> r == s
  {
    hide Flatten, SameData, Grew, IsChain, Logical, OnlyChain, CeilDiv;
    var sought, _ := a.Seek(at, 0);
    ghost var f := a.State();
    ghost var added;
    ghost var d := a.stream.data;
    ok, added := a.Write(s);
    if !ok || s == [] {
      return ok, [];
    }
    ReadBack(f, a.State(), s, Logical(d, a.boot, a.fat.g.size, added), added != [] && !a.nofat);
    hide Stored;
    r := ReadFrom(a, at, |s|);
  }

  /** seek and read inside the file. */
  method ReadFrom(a: Chain, at: nat, n: nat) returns (r: seq<Byte>)
    requires a.Valid() && 0 < n && at + n <= a.filesize
    modifies a, a.fat, a.stream
    ensures a.Valid() && r == old(a.Contents())[at..at + n]
  {
    hide Flatten, IsChain, SameData, Logical, CeilDiv, Grew, Chain.Located;
    ghost var d, cs := a.stream.data, a.Cs();
    var sought, _ := a.Seek(at, 0);
    r := a.Read(n);
  }

  lemma Basics(a: Chain)
    requires a.Valid()
    ensures a.boot.cluster > 0 && a.fat.stream == a.stream && a.fat.g.Fits(a.stream.data) && 0 <= a.fat.freeClusters
    ensures a.size == a.boot.Bytes(|a.Cs()|) && a.filesize <= a.size && Holds(a.stream.data, a.boot, a.fat.g.size)
    ensures a.fat.g.offset2 + a.fat.g.ByteLen() <= a.boot.dataoffs
  {
    hide Flatten, IsChain;
  }

  /** The first whole number of clusters that reaches p. */
  lemma FirstWhole(p: nat, m: nat, k: nat)
    requires k > 0 && p <= m * k < p + k
    ensures m == CeilDiv(p, k) && (p == m * k <==> p % k == 0)
  {
    Digits(m, p + k - 1 - m * k, k);
    if p == m * k {
      Digits(m, 0, k);
    } else {
      assert m * k == (m - 1) * k + k;
      Digits(m - 1, p - (m - 1) * k, k);
    }
  }

  /** Clusters grown if need be to reach p end at p exactly when p is whole clusters, no fewer than there were. */
  lemma AtEnd(b: Boot, n: nat, m: nat, p: nat)
    requires b.cluster > 0
    requires if p <= b.Bytes(n) then m == n else m == n + CeilDiv(p - b.Bytes(n), b.cluster)
    ensures p <= b.Bytes(m) && (p == b.Bytes(m) <==> p % b.cluster == 0 && p >= b.Bytes(n))
    ensures m == Max(n, CeilDiv(p, b.cluster))
  {
    var k := b.cluster;
    if p > b.Bytes(n) {
      Required(b, p - b.Bytes(n));
      BytesAdd(b, n, m - n);
      FirstWhole(p, m, k);
    } else {
      AtMost(p, n, k);
    }
  }

  lemma AtMost(p: nat, n: nat, k: nat)
    requires k > 0 && p <= n * k
    ensures CeilDiv(p, k) <= n && (p == n * k ==> p % k == 0)
  {
    Euclid(p + k - 1, k);
    var m := CeilDiv(p, k);
    if m > n {
      Mono(n + 1, m, k);
    }
    if p == n * k {
      Digits(n, 0, k);
    }
  }

  /** The run list of a chain that ends in a foreign mark: an allocation cannot be linked behind it. */
  lemma ForeignRuns(t: seq<nat>, runs: seq<Run>, cs: seq<nat>, low: nat, last: nat)
    requires IsChain(t, cs, low) && |t| < low && |t| <= last && EndOf(t, cs, low) != last
    requires Positive(runs) && Flatten(runs) == MappedAs(t, cs, low, last)
    ensures Growable(t, runs, last) && Behind(runs, |t|) == []
  {
    LastOf(runs);
    forall k | 0 <= k < |runs| ensures runs[k].start !in ZeroSet(t) {
      FlattenIndex(runs, k, 0);
      var j := |Flatten(runs[..k])|;
      if j < |cs| {
        ChainEntry(t, cs, low, j);
      }
    }
  }

  /** What is appended to such a file is marked used and linked to nothing: on the volume the file stays as it was. */
  method AppendToForeign(boot: Boot, fat: Fat, cluster: nat, size: nat, count: nat, ghost cs: seq<nat>,
      ghost low: nat)
    returns (a: Chain, r: Result<nat>, ghost added: seq<nat>)
    requires fat.Valid() && fat.g.offset2 + fat.g.ByteLen() <= boot.dataoffs && Holds(fat.stream.data, boot, fat.g.size)
    requires fat.g.size + 2 < low && IsChain(fat.T(), cs, low) && cs[0] == cluster
    requires size <= boot.Bytes(|cs|) && count > 0
    requires EndOf(fat.T(), cs, low) != fat.g.Last()
    modifies fat, fat.stream
    ensures fat.Valid() && (r.Ok? <==> old(fat.freeClusters) >= count)
    ensures r.Ok? ==> |added| == count && Orphaned(fat.T(), cs, low, added, fat.g.Last())
    ensures r.Err? ==> fat.T() == old(fat.T())
  {
    hide Growable, Behind, MappedAs, IsChain, Flatten, Grown, Holds, Orphaned, EndOf, Fat.MapOk, ZeroSet;
    hide Geometry.Mirrored, Geometry.Table, Geometry.SameOutside, Chain.Valid, Positive, Boot.Bytes, RunsOk, FreeSet;
    ghost var t, last := fat.T(), fat.g.Last();
    StartsInside(t, cs, low);
    a := new Chain(boot, fat, true, cluster, size, cs, low);
    ForeignRuns(t, a.runs, cs, low, last);
    var runs;
    r, runs, added := fat.Alloc(a.runs, count);
    if r.Ok? {
      Orphans(t, fat.T(), cs, low, added, last);
    }
  }

  lemma StartsInside(t: seq<nat>, cs: seq<nat>, last: nat)
    requires IsChain(t, cs, last)
    ensures cs != [] && cs[0] >= 2
  {
    assert IsCluster(t, cs[0]);
  }

  /** Chain cs as it was, and beside it one nothing leads to. */
  ghost predicate Orphaned(t: seq<nat>, cs: seq<nat>, low: nat, added: seq<nat>, last: nat) {
    IsChain(t, cs, low) && EndOf(t, cs, low) != last && IsChain(t, added, last) && Apart(cs, added)
  }

  lemma Orphans(t: seq<nat>, t': seq<nat>, cs: seq<nat>, low: nat, added: seq<nat>, last: nat)
    requires IsChain(t, cs, low) && |t| < low && |t| <= last && EndOf(t, cs, low) != last
    requires Grown(t, t', [], added, last)
    ensures Orphaned(t', cs, low, added, last)
  {
    Unlinked(t, t', cs, low, added, last);
  }

  /** What ftruncate comes to: no room to grow, a count of clusters to free below zero, or the file resized. */
  datatype Resized = NoRoom | BelowZero | Resized(nothing: bool)

  /**
   * ftruncate: the size becomes length, and on request the clusters behind it are freed. At the very end of the
   * clusters the count to free is -1, where the code marks a run of that length; here it is reported instead.
   */
  method Ftruncate(a: Chain, length: nat, free: bool) returns (r: Resized)
    requires a.Valid() && a.writable
    modifies a, a.fat, a.stream
    ensures a.Valid() && a.boot.cluster > 0
    ensures r.NoRoom? <==> old(a.Missing(length)) > old(a.fat.freeClusters)
    ensures r.BelowZero? <==> !r.NoRoom? && free && length % a.boot.cluster == 0 && length >= old(a.size)
    ensures !r.NoRoom? ==> a.filesize == a.pos == length
    ensures r.Resized? && free ==> |a.Cs()| == length / a.boot.cluster + 1
    ensures r.Resized? && !free ==> |a.Cs()| == Max(|old(a.Cs())|, CeilDiv(length, a.boot.cluster))
    ensures forall k :: 0 <= k < length && k < old(a.size) && k < a.size ==> a.Contents()[k] == old(a.Contents())[k]
  {
    hide Chain.Valid, SameData, Logical, Boot.Bytes, CeilDiv, Chain.Missing, CutAt, Flatten, Truncated;
    var grown := Reach(a, length);
    if !grown {
      return NoRoom;
    }
    if !free {
      return Resized(true);
    }
    if a.pos >= a.size {
      return BelowZero;
    }
    ghost var f := a.State();
    Basics(a);
    var nothing := a.Trunc();
    r := Resized(nothing);
    TruncatedTo(a.boot, f, a.State(), nothing);
  }

  lemma TruncatedTo(b: Boot, f: FileState, q: FileState, nothing: bool)
    requires b.cluster > 0 && |f.bytes| == b.Bytes(|f.chain|) && f.pos < |f.bytes| && f.pos == f.filesize
    requires nothing <==> b.Vcn(f.pos) + 1 == |f.chain|
    requires q == if nothing then f else Truncated(f, b)
    ensures |q.chain| == f.pos / b.cluster + 1 && q.filesize == q.pos == f.pos
    ensures |q.bytes| <= |f.bytes| && q.bytes == f.bytes[..|q.bytes|]
  {
    DivBound(f.pos, |f.chain|, b.cluster);
  }

  /** The growing part of ftruncate. */
  method Reach(a: Chain, length: nat) returns (ok: bool)
    requires a.Valid() && a.writable
    modifies a, a.fat, a.stream
    ensures a.Valid() && a.boot.cluster > 0
    ensures ok <==> old(a.Missing(length)) <= old(a.fat.freeClusters)
    ensures ok ==> a.filesize == a.pos == length <= a.size
    ensures ok ==> (length == a.size <==> length % a.boot.cluster == 0 && length >= old(a.size))
    ensures ok ==> |a.Cs()| == Max(|old(a.Cs())|, CeilDiv(length, a.boot.cluster))
    ensures |a.Contents()| >= |old(a.Contents())| && a.Contents()[..|old(a.Contents())|] == old(a.Contents())
  {
    hide Chain.Valid, SameData, Logical, Boot.Bytes, CeilDiv, Grew, Flatten;
    ghost var f, d := a.State(), a.stream.data;
    Basics(a);
    ghost var added;
    ok, added := a.Seek(length, 0);
    Basics(a);
    GrewChain(f.chain, old(a.fat.T()), a.Cs(), a.fat.T(), added, a.fat.g.Last());
    a.GrownContents(d, f.chain, added);
    if ok {
      AtEnd(a.boot, |f.chain|, |a.Cs()|, length);
      Resize(a, length);
    }
  }

  /** So no file can be cut to the clusters it has. */
  method CutToItself(a: Chain) returns (r: Resized)
    requires a.Valid() && a.writable
    modifies a, a.fat, a.stream
    ensures a.Valid() && r.BelowZero?
  {
    hide Chain.Valid;
    Basics(a);
    AtMost(a.size, |a.Cs()|, a.boot.cluster);
    r := Ftruncate(a, a.size, true);
  }

  /** Where the truncation goes from there: an exception, a loop without end, or one more cluster for the file. */
  datatype Mishap = Raises | Endless | Adopts

  function AfterEnd(g: Geometry, runs: seq<Run>): Mishap {
    if runs == [] then Raises
    else if EndOfRuns(runs) + 1 > g.RealLast() then Adopts
    else if g.bits == 12 then Endless else Raises
  }

  /**
   * trunc at the end of the clusters: the size is one cluster too large and the last run gone when a run of -1 clusters
   * is to be marked. At the end of the table that is ignored, and the cluster after the file's last one, whoever has it,
   * becomes the file's, its entry an end mark.
   */
  method TruncAtEnd(a: Chain) returns (r: Mishap)
    requires a.Valid() && a.pos == a.size
    modifies a`size, a`filesize, a`runs, a`nofat, a.fat`decoded, a.stream
    ensures r == AfterEnd(a.fat.g, old(a.runs)) && a.fat.g.Fits(a.stream.data) && !a.Valid()
    ensures a.size == old(a.size) + a.boot.cluster && a.filesize == a.pos
    ensures !r.Adopts? ==> a.fat.T() == old(a.fat.T()) && a.runs == if old(a.runs) == [] then [] else old(a.runs[..|a.runs| - 1])
    ensures r.Adopts? ==> old(a.runs) != [] && a.Cs() == old(a.Cs()) + [EndOfRuns(old(a.runs))]
    ensures r.Adopts? ==> a.fat.T() == Marked1(old(a.fat.T()), EndOfRuns(old(a.runs)), a.fat.g.Last())
  {
    hide Chain.Valid, Chain.Cs, CeilDiv, Boot.Bytes, Marked1, Fat.Valid, IsChain, Positive, Flatten, EndOfRuns;
    hide Geometry.RealLast, Holds;
    Basics(a);
    OneTooMany(a.boot, |a.Cs()|);
    ghost var m := |a.Cs()| + 1;
    var x := a.pos / a.boot.cluster;
    var n := CeilDiv(a.size, a.boot.cluster) - x - 1;
    PoppedRuns(a);
    a.size := (x + 1) * a.boot.cluster;
    a.filesize := a.pos;
    if a.runs == [] {
      WrongSize(a, m);
      return Raises;
    }
    var l := a.runs[|a.runs| - 1];
    LastRunEnds(a.runs);
    if l.start + l.len - n <= a.fat.g.RealLast() {
      a.runs := a.runs[..|a.runs| - 1];
      WrongSize(a, m);
      return if a.fat.g.bits == 12 then Endless else Raises;
    }
    Adopt(a, n);
    r := Adopts;
  }

  /** An entry made an end mark, if it is one of the table's. */
  function Marked1(t: seq<nat>, c: nat, last: nat): seq<nat> { if c < |t| then t[c := last] else t }

  /** The rest of the round, when marking the run was ignored. */
  method Adopt(a: Chain, n: int)
    requires n == -1 && a.runs != [] && a.boot.cluster > 0 && a.fat.stream == a.stream && a.fat.Valid()
    requires Positive(a.runs) && IsChain(a.fat.T(), a.Cs(), a.fat.g.Last())
    modifies a`runs, a`nofat, a.fat`decoded, a.stream
    ensures a.fat.g.Fits(a.stream.data) && !a.Valid()
    ensures a.Cs() == old(a.Cs()) + [EndOfRuns(old(a.runs))]
    ensures a.fat.T() == Marked1(old(a.fat.T()), EndOfRuns(old(a.runs)), a.fat.g.Last())
  {
    hide Geometry.Mirrored, Geometry.Table, Fat.MapOk, ZeroSet, Geometry.SameOutside, IsChain, Flatten, Positive;
    ghost var t, cs, runs := a.fat.T(), a.Cs(), a.runs;
    var l := a.runs[|a.runs| - 1];
    a.runs := a.runs[..|a.runs| - 1];
    LastInside(t, cs, runs, a.fat.g.Last());
    a.fat.Set(l.start + l.len - n - 1, a.fat.g.Last());
    a.runs := a.runs + [Run(l.start, l.len - n)];
    a.nofat := |a.runs| == 1;
    Adopted(t, a.fat.T(), cs, runs, a.runs, a.fat.g.Last());
    NoChain(a);
  }

  lemma OneTooMany(b: Boot, n: nat)
    requires b.cluster > 0
    ensures b.Bytes(n) / b.cluster == n && CeilDiv(b.Bytes(n), b.cluster) == n
    ensures (n + 1) * b.cluster == b.Bytes(n) + b.cluster == b.Bytes(n + 1)
  {
    Digits(n, 0, b.cluster);
    WholeClusters(b, n);
  }

  lemma LastRunEnds(runs: seq<Run>)
    requires runs != []
    ensures EndOfRuns(runs) == runs[|runs| - 1].start + runs[|runs| - 1].len
  {
  }

  /** What popping the last run leaves is shorter. */
  lemma PoppedRuns(a: Chain)
    requires a.Valid()
    ensures a.runs == [] ==> |Flatten([])| < |a.Cs()| + 1
    ensures a.runs != [] ==> Positive(a.runs) && IsChain(a.fat.T(), a.Cs(), a.fat.g.Last()) && a.fat.Valid()
    ensures a.runs != [] ==> |Flatten(a.runs[..|a.runs| - 1])| < |a.Cs()|
  {
    hide IsChain, Fat.Valid;
  }

  lemma WrongSize(a: Chain, m: nat)
    requires a.boot.cluster > 0 && |Flatten(a.runs)| < m && a.size == a.boot.Bytes(m)
    ensures !a.Valid()
  {
    FewerBytes(a.boot, |a.Cs()|, m);
    hide Flatten, IsChain, Fat.Valid, Boot.Bytes, Holds, Positive;
  }

  lemma FewerBytes(b: Boot, n: nat, m: nat)
    requires b.cluster > 0 && n < m
    ensures b.Bytes(n) < b.Bytes(m)
  {
    Mono(n + 1, m, b.cluster);
  }

  lemma NoChain(a: Chain)
    requires a.fat.g.Fits(a.stream.data) && a.fat.stream == a.stream && a.Cs() != []
    requires !IsChain(a.fat.T(), a.Cs(), a.fat.g.Last())
    ensures !a.Valid()
  {
    hide IsChain, Flatten;
  }

  lemma LastInside(t: seq<nat>, cs: seq<nat>, runs: seq<Run>, last: nat)
    requires runs != [] && Positive(runs) && Flatten(runs) == cs && IsChain(t, cs, last)
    ensures 3 <= EndOfRuns(runs) <= |t| && cs != [] && cs[|cs| - 1] == EndOfRuns(runs) - 1
  {
    LastOf(runs);
    assert IsCluster(t, cs[|cs| - 1]);
  }

  /** The last run lengthened by a cluster its chain does not lead to. */
  lemma Adopted(t: seq<nat>, t': seq<nat>, cs: seq<nat>, runs: seq<Run>, runs': seq<Run>, last: nat)
    requires runs != [] && Positive(runs) && Flatten(runs) == cs && IsChain(t, cs, last) && |t| < last
    requires var l := runs[|runs| - 1]; runs' == runs[..|runs| - 1] + [Run(l.start, l.len + 1)]
    requires t' == Marked1(t, EndOfRuns(runs), last)
    ensures Flatten(runs') == cs + [EndOfRuns(runs)] && !IsChain(t', Flatten(runs'), last)
  {
    hide Flatten, Positive, Interval;
    var l := runs[|runs| - 1];
    FlattenGrow(runs[..|runs| - 1], l, 1);
    assert runs[..|runs| - 1] + [l] == runs;
    LastInside(t, cs, runs, last);
    var x, z := Flatten(runs'), |cs| - 1;
    assert x == cs + [EndOfRuns(runs)];
    assert x[z] == cs[z] && x[z + 1] == EndOfRuns(runs) && t'[x[z]] == t[cs[z]];
  }

  /** Setting the size inside the clusters. */
  method Resize(a: Chain, length: nat)
    requires a.Valid() && length <= a.size
    modifies a`filesize
    ensures a.Valid() && a.filesize == length && a.State() == old(a.State()).(filesize := length)
  {
    a.filesize := length;
  }

  lemma ReadBack(f: FileState, f': FileState, s: seq<Byte>, tail: seq<Byte>, blank: bool)
    requires Stored(f, f', s, tail, blank)
    ensures f.pos + |s| <= f'.filesize && f.pos + |s| <= |f'.bytes|
    ensures f'.bytes[f.pos..f.pos + |s|] == s
  {
  }

  /** A file that grew is still apart from the others: its new clusters were free. */
  lemma StaysApart(cs: seq<nat>, t: seq<nat>, cs': seq<nat>, t': seq<nat>, added: seq<nat>, last: nat, other: seq<nat>)
    requires Grew(cs, t, cs', t', added, last) && Apart(cs, other) && |t| <= last
    requires other == [] || IsChain(t, other, last)
    ensures Apart(cs', other)
    ensures other == [] || IsChain(t', other, last)
  {
    forall c | c in other
      ensures c !in cs && c !in added
      ensures added != [] ==> IsCluster(t, c) && IsCluster(t', c) && t'[c] == t[c]
    {
      var k :| 0 <= k < |other| && other[k] == c;
      ChainEntry(t, other, last, k);
    }
    if other != [] && added != [] {
      SameChain(t, t', other, last);
    }
  }

  lemma CutApart(t: seq<nat>, t': seq<nat>, cs: seq<nat>, other: seq<nat>, last: nat, keep: nat, nothing: bool)
    requires Apart(cs, other)
    requires if nothing then t' == t else CutAt(t, t', cs, keep, last)
    requires other == [] || IsChain(t, other, last)
    ensures !nothing ==> Apart(cs[..keep], other)
    ensures other == [] || IsChain(t', other, last)
  {
    if !nothing && other != [] {
      forall c | c in other
        ensures IsCluster(t', c) && t'[c] == t[c]
      {
        assert c !in cs;
      }
      SameChain(t, t', other, last);
    }
  }
}
