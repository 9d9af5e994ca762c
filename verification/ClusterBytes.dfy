/** The bytes of a cluster chain: where logical position p of a file lies on the volume. */
module ClusterBytes {
  import opened Bytes
  import opened FatChains

  /** What a chain needs to know of the boot record. */
  datatype Boot = Boot(cluster: nat, dataoffs: nat) {
    /** cl2offset: the volume offset of a cluster. */
    function Offset(c: nat): int { dataoffs + (c - 2) * cluster }

    /** The cluster of the chain that holds position p, and p's place in it. */
    function Vcn(p: nat): nat
      requires cluster > 0
    {
      p / cluster
    }

    function Vco(p: nat): (r: nat)
      requires cluster > 0
      ensures r < cluster
    {
      p % cluster
    }

    /** The size of n clusters. */
    function Bytes(n: nat): nat { n * cluster }
  }

  lemma Euclid(p: nat, k: nat)
    requires k > 0
    ensures p == p / k * k + p % k && 0 <= p % k < k
  {
  }

  lemma Gap(a: nat, b: nat, k: nat)
    requires a < b
    ensures a * k + k <= b * k
  {
    Mono(a + 1, b, k);
    assert (a + 1) * k == a * k + k;
  }

  lemma Digits(a: nat, r: nat, k: nat)
    requires r < k
    ensures (a * k + r) / k == a && (a * k + r) % k == r
  {
    var p := a * k + r;
    var q := p / k;
    Euclid(p, k);
    if q < a {
      Gap(q, a, k);
    } else if a < q {
      Gap(a, q, k);
    }
  }

  /** Equal sums of a multiple and a remainder have equal parts. */
  lemma SameDigits(a: nat, r: nat, b: nat, q: nat, k: nat)
    requires r < k && q < k && a * k + r == b * k + q
    ensures a == b && r == q
  {
    Digits(a, r, k);
    Digits(b, q, k);
  }

  lemma DivBound(p: nat, n: nat, k: nat)
    requires k > 0 && p < n * k
    ensures p / k < n
  {
    Euclid(p, k);
    if p / k >= n {
      Mono(n, p / k, k);
    }
  }

  /** The volume holds clusters 2 .. clusters+1 after its data offset. */
  ghost predicate Holds(d: seq<Byte>, b: Boot, clusters: nat) {
    b.cluster > 0 && b.dataoffs + b.Bytes(clusters) <= |d|
  }

  ghost predicate InRange(cs: seq<nat>, clusters: nat) {
    forall k :: 0 <= k < |cs| ==> 2 <= cs[k] < clusters + 2
  }

  lemma ClusterInside(d: seq<Byte>, b: Boot, clusters: nat, c: nat)
    requires Holds(d, b, clusters) && 2 <= c < clusters + 2
    ensures b.dataoffs <= b.Offset(c) && b.Offset(c) + b.cluster <= |d|
  {
    Mono(c - 2 + 1, clusters, b.cluster);
    assert (c - 2 + 1) * b.cluster == (c - 2) * b.cluster + b.cluster;
  }

  /** Volume offset of logical position p. */
  ghost function Phys(b: Boot, cs: seq<nat>, p: nat): int
    requires b.cluster > 0 && b.Vcn(p) < |cs|
  {
    b.Offset(cs[b.Vcn(p)]) + b.Vco(p)
  }

  /** The bytes of a chain, cluster after cluster. */
  ghost function Logical(d: seq<Byte>, b: Boot, clusters: nat, cs: seq<nat>): (r: seq<Byte>)
    requires Holds(d, b, clusters) && InRange(cs, clusters)
    ensures |r| == b.Bytes(|cs|)
  {
    if cs == [] then []
    else
      ClusterInside(d, b, clusters, cs[|cs| - 1]);
      Logical(d, b, clusters, cs[..|cs| - 1]) + d[b.Offset(cs[|cs| - 1])..b.Offset(cs[|cs| - 1]) + b.cluster]
  }

  lemma {:induction false} LogicalAt(d: seq<Byte>, b: Boot, clusters: nat, cs: seq<nat>, p: nat)
    requires Holds(d, b, clusters) && InRange(cs, clusters) && p < b.Bytes(|cs|)
    ensures b.Vcn(p) < |cs|
    ensures b.dataoffs <= Phys(b, cs, p) < |d|
    ensures Logical(d, b, clusters, cs)[p] == d[Phys(b, cs, p)]
    ensures Phys(b, cs, p) == b.dataoffs + (cs[p / b.cluster] - 2) * b.cluster + p % b.cluster
    ensures |Logical(d, b, clusters, cs)| == |cs| * b.cluster
  {
    var z := |cs| - 1;
    var k := b.cluster;
    DivBound(p, |cs|, k);
    Euclid(p, k);
    ClusterInside(d, b, clusters, cs[p / k]);
    assert |cs| * k == z * k + k;
    if p < z * k {
      DivBound(p, z, k);
      LogicalAt(d, b, clusters, cs[..z], p);
    } else {
      Digits(z, p - z * k, k);
      ClusterInside(d, b, clusters, cs[z]);
    }
  }

  /** Two bytes of a chain are never the same byte of the volume. */
  lemma SamePhys(b: Boot, cs: seq<nat>, p: nat, q: nat)
    requires b.cluster > 0 && b.Vcn(p) < |cs| && b.Vcn(q) < |cs|
    requires Distinct(cs) && (forall k :: 0 <= k < |cs| ==> 2 <= cs[k])
    requires Phys(b, cs, p) == Phys(b, cs, q)
    ensures p == q
  {
    var k := b.cluster;
    var v, w := p / k, q / k;
    Euclid(p, k);
    Euclid(q, k);
    SameDigits(cs[v] - 2, p % k, cs[w] - 2, q % k, k);
    SameIndex(cs, v, w);
  }

  lemma SameIndex(cs: seq<nat>, v: nat, w: nat)
    requires Distinct(cs) && v < |cs| && w < |cs| && cs[v] == cs[w]
    ensures v == w
  {
  }

  /** Bytes of a cluster outside the chain are not bytes of the chain. */
  lemma PhysElsewhere(b: Boot, cs: seq<nat>, p: nat, c: nat, r: nat)
    requires b.cluster > 0 && b.Vcn(p) < |cs| && r < b.cluster
    requires 2 <= c && c !in cs && 2 <= cs[b.Vcn(p)]
    ensures Phys(b, cs, p) != b.Offset(c) + r
  {
    var k := b.cluster;
    Euclid(p, k);
    if Phys(b, cs, p) == b.Offset(c) + r {
      SameDigits(cs[p / k] - 2, p % k, c - 2, r, k);
    }
  }

  /** m clusters of the chain from p's cluster on lie one after the other on the volume. */
  ghost predicate Contiguous(b: Boot, cs: seq<nat>, v: nat, m: nat) {
    v + m <= |cs| && forall j :: v <= j < v + m ==> cs[j] == cs[v] + (j - v)
  }

  /** Inside a contiguous stretch logical and volume positions advance together. */
  lemma PhysAdvance(b: Boot, cs: seq<nat>, p: nat, m: nat, j: nat)
    requires b.cluster > 0 && Contiguous(b, cs, b.Vcn(p), m) && m > 0
    requires (forall k :: 0 <= k < |cs| ==> 2 <= cs[k])
    requires b.Vco(p) + j < b.Bytes(m)
    ensures b.Vcn(p + j) < b.Vcn(p) + m <= |cs|
    ensures Phys(b, cs, p + j) == Phys(b, cs, p) + j
  {
    var k := b.cluster;
    var v, r := p / k, p % k;
    DivBound(r + j, m, k);
    var a := Advance(p, j, k);
    assert cs[v + a] == cs[v] + a;
    Spread(cs[v] - 2, a, k);
  }

  lemma Spread(x: nat, a: nat, k: nat)
    ensures (x + a) * k == x * k + a * k
  {
  }

  lemma Advance(p: nat, j: nat, k: nat) returns (a: nat)
    requires k > 0
    ensures a == (p % k + j) / k
    ensures (p + j) / k == p / k + a
    ensures (p + j) % k == p % k + j - a * k
  {
    var v, r := p / k, p % k;
    a := (r + j) / k;
    Euclid(p, k);
    Euclid(r + j, k);
    Spread(v, a, k);
    Digits(v + a, (r + j) % k, k);
  }

  /** r with s laid over it at p. */
  ghost function Splice(r: seq<Byte>, p: nat, s: seq<Byte>): (q: seq<Byte>)
    requires p + |s| <= |r|
    ensures |q| == |r|
  {
    r[..p] + s + r[p + |s|..]
  }

  lemma SpliceAt(r: seq<Byte>, p: nat, s: seq<Byte>, j: nat)
    requires p + |s| <= |r| && j < |r|
    ensures Splice(r, p, s)[j] == if p <= j < p + |s| then s[j - p] else r[j]
  {
  }

  /** Reading n contiguous bytes of the volume reads n bytes of the file. */
  lemma {:induction false} ReadChunk(d: seq<Byte>, b: Boot, clusters: nat, cs: seq<nat>, p: nat, m: nat, n: nat)
    requires Holds(d, b, clusters) && InRange(cs, clusters)
    requires Contiguous(b, cs, b.Vcn(p), m) && m > 0
    requires n > 0 && b.Vco(p) + n <= b.Bytes(m)
    ensures p + n <= b.Bytes(|cs|) && b.Vcn(p) < |cs|
    ensures 0 <= Phys(b, cs, p) && Phys(b, cs, p) + n <= |d|
    ensures ReadAt(d, Phys(b, cs, p), n) == Logical(d, b, clusters, cs)[p..p + n]
  {
    ChunkInside(d, b, clusters, cs, p, m, n);
    var x, y := ReadAt(d, Phys(b, cs, p), n), Logical(d, b, clusters, cs)[p..p + n];
    assert |x| == |y| == n;
    forall j | 0 <= j < n
      ensures x[j] == y[j]
    {
      PhysAdvance(b, cs, p, m, j);
      LogicalAt(d, b, clusters, cs, p + j);
    }
  }

  lemma ChunkInside(d: seq<Byte>, b: Boot, clusters: nat, cs: seq<nat>, p: nat, m: nat, n: nat)
    requires Holds(d, b, clusters) && InRange(cs, clusters)
    requires Contiguous(b, cs, b.Vcn(p), m) && m > 0
    requires n > 0 && b.Vco(p) + n <= b.Bytes(m)
    ensures p + n <= b.Bytes(|cs|) && b.Vcn(p) < |cs|
    ensures b.dataoffs <= Phys(b, cs, p) && Phys(b, cs, p) + n <= |d|
  {
    var k := b.cluster;
    Euclid(p, k);
    Mono(p / k + m, |cs|, k);
    assert (p / k + m) * k == p / k * k + m * k;
    LogicalAt(d, b, clusters, cs, p);
    PhysAdvance(b, cs, p, m, n - 1);
    LogicalAt(d, b, clusters, cs, p + (n - 1));
  }

  /** Writing s to contiguous bytes of the volume splices s into the file and touches no other cluster. */
  lemma {:induction false} WriteChunk(d: seq<Byte>, b: Boot, clusters: nat, cs: seq<nat>, p: nat, m: nat, s: seq<Byte>,
                                      e: seq<Byte>)
    requires Holds(d, b, clusters) && InRange(cs, clusters) && Distinct(cs)
    requires Contiguous(b, cs, b.Vcn(p), m) && m > 0
    requires s != [] && b.Vco(p) + |s| <= b.Bytes(m)
    requires b.Vcn(p) < |cs| && Phys(b, cs, p) >= 0 ==> e == Overwrite(d, Phys(b, cs, p), s)
    ensures p + |s| <= b.Bytes(|cs|) && b.Vcn(p) < |cs|
    ensures b.dataoffs <= Phys(b, cs, p)
    ensures |e| == |d| && OnlyChain(d, e, b, clusters, cs) && SameBefore(d, e, b.dataoffs)
    ensures Logical(e, b, clusters, cs) == Splice(Logical(d, b, clusters, cs), p, s)
  {
    var n := |s|;
    ChunkInside(d, b, clusters, cs, p, m, n);
    var at := Phys(b, cs, p);
    ChunkElsewhere(d, b, clusters, cs, p, m, s, e);
    assert Holds(e, b, clusters) && SameBefore(d, e, b.dataoffs);
    assert forall k :: 0 <= k < |cs| ==> 2 <= cs[k];
    hide *;
    var x, y := Logical(e, b, clusters, cs), Splice(Logical(d, b, clusters, cs), p, s);
    forall q | 0 <= q < b.Bytes(|cs|)
      ensures x[q] == y[q]
    {
      LogicalAt(e, b, clusters, cs, q);
      LogicalAt(d, b, clusters, cs, q);
      SpliceAt(Logical(d, b, clusters, cs), p, s, q);
      ChunkByte(d, b, cs, p, m, s, q);
    }
  }

  /** Byte q of the file, found on the volume, is the written one or the old one. */
  lemma ChunkByte(d: seq<Byte>, b: Boot, cs: seq<nat>, p: nat, m: nat, s: seq<Byte>, q: nat)
    requires b.cluster > 0 && Distinct(cs) && (forall k :: 0 <= k < |cs| ==> 2 <= cs[k])
    requires Contiguous(b, cs, b.Vcn(p), m) && m > 0
    requires s != [] && b.Vco(p) + |s| <= b.Bytes(m)
    requires b.Vcn(p) < |cs| && b.Vcn(q) < |cs|
    requires 0 <= Phys(b, cs, p) && Phys(b, cs, p) + |s| <= |d| && 0 <= Phys(b, cs, q) < |d|
    ensures |Overwrite(d, Phys(b, cs, p), s)| == |d|
    ensures Overwrite(d, Phys(b, cs, p), s)[Phys(b, cs, q)] ==
      if p <= q < p + |s| then s[q - p] else d[Phys(b, cs, q)]
  {
    hide *;
    InChunk(b, cs, p, m, |s|, q);
    OverwriteAt(d, Phys(b, cs, p), s, Phys(b, cs, q));
  }

  /** The volume bytes of a contiguous chunk are exactly those of the file positions it covers. */
  lemma InChunk(b: Boot, cs: seq<nat>, p: nat, m: nat, n: nat, q: nat)
    requires b.cluster > 0 && Contiguous(b, cs, b.Vcn(p), m) && m > 0
    requires Distinct(cs) && (forall k :: 0 <= k < |cs| ==> 2 <= cs[k])
    requires b.Vco(p) + n <= b.Bytes(m) && n > 0
    requires b.Vcn(p) < |cs| && b.Vcn(q) < |cs|
    ensures p <= q < p + n ==> Phys(b, cs, q) == Phys(b, cs, p) + (q - p)
    ensures !(p <= q < p + n) ==> !(Phys(b, cs, p) <= Phys(b, cs, q) < Phys(b, cs, p) + n)
  {
    hide Phys;
    if p <= q < p + n {
      PhysAdvance(b, cs, p, m, q - p);
    } else if Phys(b, cs, p) <= Phys(b, cs, q) < Phys(b, cs, p) + n {
      var j := Phys(b, cs, q) - Phys(b, cs, p);
      PhysAdvance(b, cs, p, m, j);
      SamePhys(b, cs, p + j, q);
    }
  }

  ghost predicate SameCluster(d: seq<Byte>, e: seq<Byte>, b: Boot, c: nat) {
    && 0 <= b.Offset(c) && b.Offset(c) + b.cluster <= |d| && |d| == |e|
    && d[b.Offset(c)..b.Offset(c) + b.cluster] == e[b.Offset(c)..b.Offset(c) + b.cluster]
  }

  ghost predicate SameBefore(d: seq<Byte>, e: seq<Byte>, n: nat) {
    |d| == |e| && forall k :: 0 <= k < |d| && k < n ==> e[k] == d[k]
  }

  /** Only clusters of the chain differ between two states of the volume. */
  ghost predicate OnlyChain(d: seq<Byte>, e: seq<Byte>, b: Boot, clusters: nat, cs: seq<nat>) {
    && |e| == |d|
    && (forall c {:trigger SameCluster(d, e, b, c)} :: 2 <= c < clusters + 2 && c !in cs ==> SameCluster(d, e, b, c))
  }

  lemma ChunkElsewhere(d: seq<Byte>, b: Boot, clusters: nat, cs: seq<nat>, p: nat, m: nat, s: seq<Byte>, e: seq<Byte>)
    requires Holds(d, b, clusters) && InRange(cs, clusters)
    requires Contiguous(b, cs, b.Vcn(p), m) && m > 0
    requires s != [] && b.Vco(p) + |s| <= b.Bytes(m)
    requires b.Vcn(p) < |cs| && b.dataoffs <= Phys(b, cs, p) && Phys(b, cs, p) + |s| <= |d|
    requires e == Overwrite(d, Phys(b, cs, p), s)
    ensures OnlyChain(d, e, b, clusters, cs)
  {
    forall c | 2 <= c < clusters + 2 && c !in cs
      ensures SameCluster(d, e, b, c)
    {
      ClusterInside(d, b, clusters, c);
      ClusterElsewhere(b, cs, p, m, |s|, c);
      SameSlice(d, b.Offset(c), b.cluster, Phys(b, cs, p), s);
    }
  }

  lemma ClusterElsewhere(b: Boot, cs: seq<nat>, p: nat, m: nat, n: nat, c: nat)
    requires b.cluster > 0 && Contiguous(b, cs, b.Vcn(p), m) && m > 0
    requires (forall k :: 0 <= k < |cs| ==> 2 <= cs[k])
    requires b.Vco(p) + n <= b.Bytes(m) && b.Vcn(p) < |cs|
    requires 2 <= c && c !in cs
    ensures Phys(b, cs, p) + n <= b.Offset(c) || b.Offset(c) + b.cluster <= Phys(b, cs, p) || n == 0
  {
    hide *;
    var at, o := Phys(b, cs, p), b.Offset(c);
    if n > 0 && o < at + n && at < o + b.cluster {
      var x := if at <= o then o else at;
      PhysAdvance(b, cs, p, m, x - at);
      PhysElsewhere(b, cs, p + (x - at), c, x - o);
    }
  }

  lemma SameSlice(d: seq<Byte>, a: nat, n: nat, p: nat, s: seq<Byte>)
    requires a + n <= |d| && p + |s| <= |d|
    requires p + |s| <= a || a + n <= p
    ensures |Overwrite(d, p, s)| == |d|
    ensures d[a..a + n] == Overwrite(d, p, s)[a..a + n]
  {
  }

  lemma OnlyChainTrans(d: seq<Byte>, e: seq<Byte>, f: seq<Byte>, b: Boot, clusters: nat, cs: seq<nat>)
    requires OnlyChain(d, e, b, clusters, cs) && OnlyChain(e, f, b, clusters, cs)
    ensures OnlyChain(d, f, b, clusters, cs)
  {
    forall c | 2 <= c < clusters + 2 && c !in cs
      ensures SameCluster(d, f, b, c)
    {
      assert SameCluster(d, e, b, c) && SameCluster(e, f, b, c);
    }
  }

  /** The data area is as it was, whatever happened before it. */
  ghost predicate SameData(d: seq<Byte>, e: seq<Byte>, b: Boot) {
    |d| == |e| && forall k :: b.dataoffs <= k < |d| ==> e[k] == d[k]
  }

  lemma {:induction false} SameDataLogical(d: seq<Byte>, e: seq<Byte>, b: Boot, clusters: nat, cs: seq<nat>)
    requires Holds(d, b, clusters) && InRange(cs, clusters) && SameData(d, e, b)
    ensures Holds(e, b, clusters) && Logical(e, b, clusters, cs) == Logical(d, b, clusters, cs)
  {
    var x, y := Logical(e, b, clusters, cs), Logical(d, b, clusters, cs);
    forall p | 0 <= p < b.Bytes(|cs|)
      ensures x[p] == y[p]
    {
      LogicalAt(d, b, clusters, cs, p);
      LogicalAt(e, b, clusters, cs, p);
    }
  }

  lemma SameDataOnly(d: seq<Byte>, e: seq<Byte>, b: Boot, clusters: nat, cs: seq<nat>)
    requires Holds(d, b, clusters) && SameData(d, e, b)
    ensures OnlyChain(d, e, b, clusters, cs)
  {
    forall c | 2 <= c < clusters + 2 && c !in cs
      ensures SameCluster(d, e, b, c)
    {
      ClusterInside(d, b, clusters, c);
      assert d[b.Offset(c)..b.Offset(c) + b.cluster] == e[b.Offset(c)..b.Offset(c) + b.cluster];
    }
  }

  /** The bytes of a grown chain: the old ones, then those of the new clusters. */
  lemma {:induction false} LogicalAppend(d: seq<Byte>, b: Boot, clusters: nat, cs: seq<nat>, added: seq<nat>)
    requires Holds(d, b, clusters) && InRange(cs, clusters) && InRange(added, clusters) && InRange(cs + added, clusters)
    ensures Logical(d, b, clusters, cs + added) == Logical(d, b, clusters, cs) + Logical(d, b, clusters, added)
  {
    if added == [] {
      assert cs + added == cs;
    } else {
      var z := |added| - 1;
      assert (cs + added)[..|cs| + z] == cs + added[..z];
      assert (cs + added)[|cs| + z] == added[z];
      LogicalAppend(d, b, clusters, cs, added[..z]);
    }
  }

  /** Two states of a volume that agree on a chain's clusters give the chain the same bytes. */
  lemma {:induction false} OtherChainKept(d: seq<Byte>, e: seq<Byte>, b: Boot, clusters: nat, cs: seq<nat>,
      other: seq<nat>)
    requires Holds(d, b, clusters) && InRange(other, clusters) && OnlyChain(d, e, b, clusters, cs)
    requires forall c :: c in other ==> c !in cs
    ensures Holds(e, b, clusters) && Logical(e, b, clusters, other) == Logical(d, b, clusters, other)
  {
    if other != [] {
      var z := |other| - 1;
      OtherChainKept(d, e, b, clusters, cs, other[..z]);
      assert other[z] in other;
      assert SameCluster(d, e, b, other[z]);
    }
  }
}
