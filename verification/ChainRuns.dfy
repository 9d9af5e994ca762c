/** Any history of operations on the open files of a volume, against growable arrays of bytes with a position. */
module ChainRuns {
  import opened Bytes
  import opened FatChains
  import opened FatDriver
  import opened FatVolume
  import opened ClusterBytes
  import opened ChainFile
  import opened ChainClients

  /** An operation on an open file: a seek, a read or a write at the position, a truncation there. */
  datatype Command = Go(offset: int, whence: int) | Get(n: int) | Store(s: seq<Byte>) | Shorten

  datatype Answer = Got(r: seq<Byte>) | Done(ok: bool)

  /** What only the volume knows: the bytes clusters held before they were appended, and how many fragments the file has
      then. */
  datatype Note = Note(tail: seq<Byte>, fragments: nat)

  /** A file as its bytes to the end of the last cluster, its size, the position and the number of its fragments. */
  datatype Plain = Plain(writable: bool, bytes: seq<Byte>, filesize: nat, pos: nat, fragments: nat) {
    function To(op: Command): int
      requires op.Go?
    {
      if op.whence == 1 then pos + op.offset
      else if op.whence == 2 then (if |bytes| != 0 then |bytes| + op.offset else pos)
      else op.offset
    }

    /** No seek before the start, no truncation at the end of the last cluster. */
    predicate Legal(op: Command) {
      (op.Go? ==> To(op) >= 0) && (op.Shorten? ==> pos < |bytes|)
    }

    /** How far the clusters must reach. */
    function Stop(op: Command): nat
      requires Legal(op)
    {
      match op
      case Go(_, _) => if writable then To(op) else 0
      case Store(s) => if s == [] then 0 else pos + |s|
      case _ => 0
    }

    function Needed(op: Command, cluster: nat): nat
      requires Legal(op) && cluster > 0
    {
      if Stop(op) > |bytes| then CeilDiv(Stop(op) - |bytes|, cluster) else 0
    }

    /** The clusters an operation takes: those it needs, or none if there are not as many. */
    function Taken(op: Command, cluster: nat, free: int): nat
      requires Legal(op) && cluster > 0
    {
      if Needed(op, cluster) <= free then Needed(op, cluster) else 0
    }

    /** The bytes a read gets; a negative count asks for as many as the file has. */
    function Read(n: int): seq<Byte> {
      var stop := Min(if n < 0 then pos + filesize else pos + n, Min(filesize, |bytes|));
      if pos < stop then bytes[pos..stop] else []
    }

    function Pieces(note: Note): nat { if note.tail == [] then fragments else note.fragments }

    /** The file after an operation that appended the bytes of the note; a write that did zeroes the rest of the last
        cluster, unless all is one fragment. */
    ghost function Step(op: Command, cluster: nat, free: int, note: Note): Plain
      requires Legal(op) && cluster > 0 && |note.tail| == Taken(op, cluster, free) * cluster
    {
      match op
      case Go(_, _) =>
        Plain(writable, bytes + note.tail, filesize, if writable then To(op) else Min(To(op), |bytes|), Pieces(note))
      case Get(n) => this.(pos := pos + |Read(n)|)
      case Store(s) =>
        if s == [] || Needed(op, cluster) > free then this
        else
          Reaches(op, cluster);
          Plain(writable, Written(bytes + note.tail, pos, s, note.tail != [] && note.fragments > 1), Max(filesize, pos + |s|),
            pos + |s|, Pieces(note))
      case Shorten =>
        var keep := (pos / cluster + 1) * cluster;
        if keep == |bytes| then this else Plain(writable, bytes[..Min(keep, |bytes|)], pos, pos, note.fragments)
    }

    lemma Reaches(op: Command, cluster: nat)
      requires Legal(op) && cluster > 0
      ensures Stop(op) <= |bytes| + Needed(op, cluster) * cluster
    {
      if Stop(op) > |bytes| {
        Euclid(Stop(op) - |bytes| + cluster - 1, cluster);
      }
    }

    function Output(op: Command, cluster: nat, free: int): Answer
      requires Legal(op) && cluster > 0
    {
      if op.Get? then Got(Read(op.n)) else Done(Needed(op, cluster) <= free)
    }
  }

  /** The open files, and the clusters that may still be taken. */
  datatype World = World(cluster: nat, files: seq<Plain>, free: int) {
    predicate Legal(i: nat, op: Command) { cluster > 0 && i < |files| && files[i].Legal(op) }

    /** The note brings as many bytes as the operation takes clusters. */
    predicate Noted(i: nat, op: Command, note: Note)
      requires Legal(i, op)
    {
      |note.tail| == files[i].Taken(op, cluster, free) * cluster
    }

    ghost function Step(i: nat, op: Command, note: Note): World
      requires Legal(i, op) && Noted(i, op, note)
    {
      World(cluster, files[i := files[i].Step(op, cluster, free, note)], free - files[i].Taken(op, cluster, free))
    }
  }

  /** A command for one of the files. */
  datatype Order = Order(file: nat, op: Command)

  /** Worlds that follow one another by the orders. */
  ghost predicate IsRun(ws: seq<World>, orders: seq<Order>, notes: seq<Note>, out: seq<Answer>) {
    && |ws| == |orders| + 1 && |notes| == |out| == |orders|
    && forall k {:trigger orders[k]} :: 0 <= k < |orders| ==>
        && ws[k].Legal(orders[k].file, orders[k].op) && ws[k].Noted(orders[k].file, orders[k].op, notes[k])
        && ws[k + 1] == ws[k].Step(orders[k].file, orders[k].op, notes[k])
        && out[k] == ws[k].files[orders[k].file].Output(orders[k].op, ws[k].cluster, ws[k].free)
  }

  // ---- what is read and written before the end of a file ----

  /** The contents of a file: its bytes up to its size. */
  function Text(p: Plain): seq<Byte>
    requires p.filesize <= |p.bytes|
  {
    p.bytes[..p.filesize]
  }

  /** A read gives the contents from the position on. */
  lemma ReadsText(p: Plain, n: nat)
    requires p.filesize <= |p.bytes|
    ensures p.Read(n) == ReadAt(Text(p), p.pos, n)
  {
    var stop := Min(p.pos + n, p.filesize);
    if p.pos < stop {
      var x, y := p.bytes[..p.filesize][p.pos..stop], p.bytes[p.pos..stop];
      forall k | 0 <= k < stop - p.pos ensures x[k] == y[k] {
      }
      assert x == y;
    }
  }

  /** Up to the end of the contents a write overwrites or extends them, whatever clusters it takes and what was in them. */
  lemma WritesText(p: Plain, s: seq<Byte>, cluster: nat, free: int, note: Note)
    requires cluster > 0 && p.pos <= p.filesize <= |p.bytes| && |note.tail| == p.Taken(Store(s), cluster, free) * cluster
    ensures p.Step(Store(s), cluster, free, note).filesize <= |p.Step(Store(s), cluster, free, note).bytes|
    ensures Text(p.Step(Store(s), cluster, free, note)) ==
        if p.Needed(Store(s), cluster) <= free then Overwrite(Text(p), p.pos, s) else Text(p)
  {
    var q := p.Step(Store(s), cluster, free, note);
    if s != [] && p.Needed(Store(s), cluster) <= free {
      p.Reaches(Store(s), cluster);
      hide Written, Overwrite;
      TextOver(p.bytes, note.tail, p.filesize, p.pos, s, note.tail != [] && note.fragments > 1);
    }
  }

  /** In terms of contents, and unless the tip is blanked before their end, a write is an overwrite. */
  lemma TextOver(bytes: seq<Byte>, tail: seq<Byte>, size: nat, pos: nat, s: seq<Byte>, blank: bool)
    requires s != [] && pos <= size <= |bytes| && pos + |s| <= |bytes + tail| && (blank ==> pos + |s| >= size)
    ensures Max(size, pos + |s|) <= |Written(bytes + tail, pos, s, blank)|
    ensures Written(bytes + tail, pos, s, blank)[..Max(size, pos + |s|)] == Overwrite(bytes[..size], pos, s)
  {
    var base := bytes + tail;
    var x, y := Written(base, pos, s, blank)[..Max(size, pos + |s|)], Overwrite(bytes[..size], pos, s);
    assert |x| == |y|;
    forall k | 0 <= k < |x| ensures x[k] == y[k] {
      SpliceAt(base, pos, s, k);
      assert x[k] == Splice(base, pos, s)[k] && y[k] == if pos <= k < pos + |s| then s[k - pos] else bytes[k];
    }
  }

  // ---- open files as such ----

  /** What an open file is, cluster chains forgotten. */
  ghost function Seen(a: Chain): Plain
    requires a.Valid()
    reads a`runs, a`start, a`size, a`nofat, a`filesize, a`pos
    reads a.fat`decoded, a.fat`freeMap, a.fat`freeClusters, a.fat`uncompacted, a.stream`data
  {
    Plain(a.writable, a.Contents(), a.filesize, a.pos, |a.runs|)
  }

  /** On a volume with bytes d and table t the fields of an open file describe p. */
  ghost predicate FileAt(a: Chain, fat: Fat, boot: Boot, d: seq<Byte>, t: seq<nat>, p: Plain)
    reads a`runs, a`start, a`size, a`nofat, a`filesize, a`pos
  {
    && a.fat == fat && a.boot == boot && a.stream == fat.stream && a.OnDisk(t)
    && Holds(d, boot, fat.g.size) && InRange(a.Cs(), fat.g.size)
    && p == Plain(a.writable, Logical(d, boot, fat.g.size, a.Cs()), a.filesize, a.pos, |a.runs|)
  }

  /** The driver behind the tables of one volume. */
  ghost predicate Mounted(fat: Fat, boot: Boot)
    reads fat`decoded, fat`freeMap, fat`freeClusters, fat`uncompacted, fat.stream`data
  {
    && fat.Valid() && fat.g.offset2 + fat.g.ByteLen() <= boot.dataoffs && boot.cluster > 0
    && Holds(fat.stream.data, boot, fat.g.size)
  }

  /** The chains of the open files. */
  ghost function Css(files: seq<Chain>): (css: seq<seq<nat>>)
    reads files
    ensures |css| == |files| && forall k {:trigger css[k]} :: 0 <= k < |files| ==> css[k] == files[k].Cs()
  {
    seq(|files|, k requires 0 <= k < |files| reads files => files[k].Cs())
  }

  /** The chains of a volume: those that are not empty, by place, and others. */
  function Chains(css: seq<seq<nat>>, others: map<nat, seq<nat>>): map<nat, seq<nat>> {
    (map k | k in others && k >= |css| :: others[k]) + (map k: nat | k < |css| && css[k] != [] :: css[k])
  }

  /** Different objects. */
  predicate Different(files: seq<Chain>) {
    forall j, k {:trigger files[j], files[k]} :: 0 <= j < k < |files| ==> files[j] != files[k]
  }

  /** The files are what the plain ones say. */
  ghost predicate FilesAt(files: seq<Chain>, fat: Fat, boot: Boot, d: seq<Byte>, t: seq<nat>, ps: seq<Plain>)
    reads files
  {
    |ps| == |files| && forall k {:trigger files[k]} :: 0 <= k < |files| ==> FileAt(files[k], fat, boot, d, t, ps[k])
  }

  /** The files are open on one volume, whose clusters are shared out among free space, their chains and the others;
      and they are what the world says. */
  ghost predicate Is(files: seq<Chain>, fat: Fat, boot: Boot, others: map<nat, seq<nat>>, w: World)
    reads files, fat, fat.stream
  {
    && Mounted(fat, boot) && w.free == fat.freeClusters && w.cluster == boot.cluster && Different(files)
    && FilesAt(files, fat, boot, fat.stream.data, fat.T(), w.files)
    && Partitioned(Volume(fat.T(), Chains(Css(files), others)), fat.g.Last())
  }

  lemma OpenFile(a: Chain, fat: Fat, boot: Boot, p: Plain)
    requires Mounted(fat, boot) && FileAt(a, fat, boot, fat.stream.data, fat.T(), p)
    ensures a.fat == fat && a.boot == boot && a.stream == fat.stream && a.Valid() && Seen(a) == p
    ensures fat.g.Fits(fat.stream.data) && p.pos == a.pos && |p.bytes| == a.size
  {
    hide Chain.OnDisk, Logical, Holds, InRange;
  }

  lemma FileOpen(a: Chain)
    requires a.Valid()
    ensures Mounted(a.fat, a.boot) && FileAt(a, a.fat, a.boot, a.fat.stream.data, a.fat.T(), Seen(a))
  {
    a.ChainFacts();
    Basics(a);
    hide Fat.Valid, Logical, Holds, InRange;
  }

  /** Growing one file keeps the partition. */
  lemma GrewKeeps(v: Volume, i: nat, cs: seq<nat>, t': seq<nat>, cs': seq<nat>, added: seq<nat>, last: nat)
    requires Partitioned(v, last) && (if cs == [] then i !in v.files else i in v.files && v.files[i] == cs)
    requires Grew(cs, v.table, cs', t', added, last)
    ensures Partitioned(Volume(t', if cs' == [] then v.files else v.files[i := cs']), last)
  {
    if added == [] {
      assert cs != [] ==> v.files[i := cs] == v.files;
    } else {
      GrowKeeps(v, i, cs, added, Volume(t', v.files[i := cs + added]), last);
    }
  }

  // ---- one operation on one file ----

  /** What an operation makes of a file and of the count of free clusters. */
  ghost predicate Did(p: Plain, q: Plain, op: Command, cluster: nat, free: int, free': int, note: Note) {
    && cluster > 0 && p.Legal(op) && |note.tail| == p.Taken(op, cluster, free) * cluster
    && q == p.Step(op, cluster, free, note)
    && free' == free - p.Taken(op, cluster, free)
  }

  /** seek */
  method GoOne(a: Chain, offset: int, whence: int, ghost p: Plain) returns (ok: bool, ghost note: Note, ghost added: seq<nat>)
    requires a.Valid() && p == Seen(a) && p.Legal(Go(offset, whence))
    modifies a, a.fat, a.stream
    ensures a.Valid() && a.boot.cluster > 0
    ensures Did(p, Seen(a), Go(offset, whence), a.boot.cluster, old(a.fat.freeClusters), a.fat.freeClusters, note)
    ensures Grew(old(a.Cs()), old(a.fat.T()), a.Cs(), a.fat.T(), added, a.fat.g.Last())
    ensures OnlyChain(old(a.stream.data), a.stream.data, a.boot, a.fat.g.size, a.Cs())
    ensures Done(ok) == p.Output(Go(offset, whence), a.boot.cluster, old(a.fat.freeClusters))
  {
    hide Chain.Valid, Grew, SameData, Logical, CeilDiv, Boot.Bytes, Chain.Located, Chain.Cs, Holds, OnlyChain;
    Basics(a);
    ghost var d, cs := a.stream.data, a.Cs();
    ok, added := a.Seek(offset, whence);
    Basics(a);
    GrewChain(cs, old(a.fat.T()), a.Cs(), a.fat.T(), added, a.fat.g.Last());
    a.GrownContents(d, cs, added);
    BytesAdd(a.boot, 0, |added|);
    note := Note(Logical(d, a.boot, a.fat.g.size, added), |a.runs|);
    SomeBytes(|added|, a.boot.cluster);
    SameDataOnly(d, a.stream.data, a.boot, a.fat.g.size, a.Cs());
  }

  /** write */
  method StoreOne(a: Chain, s: seq<Byte>, ghost p: Plain) returns (ok: bool, ghost note: Note, ghost added: seq<nat>)
    requires a.Valid() && p == Seen(a)
    modifies a, a.fat, a.stream
    ensures a.Valid() && a.boot.cluster > 0
    ensures Did(p, Seen(a), Store(s), a.boot.cluster, old(a.fat.freeClusters), a.fat.freeClusters, note)
    ensures Grew(old(a.Cs()), old(a.fat.T()), a.Cs(), a.fat.T(), added, a.fat.g.Last())
    ensures OnlyChain(old(a.stream.data), a.stream.data, a.boot, a.fat.g.size, a.Cs())
    ensures Done(ok) == p.Output(Store(s), a.boot.cluster, old(a.fat.freeClusters))
  {
    hide Chain.Valid, Grew, SameData, Logical, CeilDiv, Boot.Bytes, Chain.Cs, Holds, OnlyChain, Written;
    Basics(a);
    a.ChainFacts();
    ghost var d, cs := a.stream.data, a.Cs();
    ok, added := a.Write(s);
    Basics(a);
    BytesAdd(a.boot, 0, |added|);
    note := Note([], 0);
    if ok && s != [] {
      note := Note(Logical(d, a.boot, a.fat.g.size, added), |a.runs|);
      GrewChain(cs, old(a.fat.T()), a.Cs(), a.fat.T(), added, a.fat.g.Last());
      SomeRun(a);
      SomeBytes(|added|, a.boot.cluster);
    }
  }

  lemma SomeRun(a: Chain)
    ensures a.Cs() != [] ==> a.runs != []
  {
  }

  lemma SomeBytes(n: nat, m: nat)
    requires m > 0
    ensures n > 0 ==> n * m > 0
  {
  }

  /** read */
  method GetOne(a: Chain, n: int, ghost p: Plain) returns (r: seq<Byte>)
    requires a.Valid() && p == Seen(a)
    modifies a`pos, a`vcn, a`vco, a`lastVcn, a`lastLcn, a.stream`pos, a.stream`ready
    ensures a.Valid() && a.boot.cluster > 0
    ensures Did(p, Seen(a), Get(n), a.boot.cluster, a.fat.freeClusters, a.fat.freeClusters, Note([], 0))
    ensures r == p.Read(n)
  {
    hide Chain.Valid, SameData, Logical, CeilDiv, Boot.Bytes, Chain.Cs, Holds, OnlyChain, Grew;
    Basics(a);
    r := a.Read(n);
  }

  /** trunc */
  method CutOne(a: Chain, ghost p: Plain) returns (nothing: bool, ghost keep: nat, ghost note: Note)
    requires a.Valid() && p == Seen(a) && a.pos < a.size
    modifies a, a.fat, a.stream
    ensures a.Valid() && a.boot.cluster > 0 && SameData(old(a.stream.data), a.stream.data, a.boot)
    ensures Did(p, Seen(a), Shorten, a.boot.cluster, old(a.fat.freeClusters), a.fat.freeClusters, note)
    ensures Cutting(old(a.fat.T()), old(a.Cs()), a.fat.T(), a.Cs(), keep, nothing, a.fat.g.Last())
  {
    hide Chain.Valid, SameData, Logical, CeilDiv, Chain.Cs, Holds, Truncated, Boot.Vcn, Boot.Bytes, CutAt;
    Basics(a);
    ghost var f, free := a.State(), a.fat.freeClusters;
    keep := a.boot.Vcn(a.pos) + 1;
    nothing := a.Trunc();
    Basics(a);
    note := Note([], |a.runs|);
    Shortened(a.boot, f, a.State(), a.writable, free, nothing, p.fragments, |a.runs|);
  }

  /** The table and a chain after a truncation. */
  ghost predicate Cutting(t: seq<nat>, c: seq<nat>, t': seq<nat>, c': seq<nat>, keep: nat, nothing: bool, last: nat) {
    if nothing then t' == t && c' == c else (0 < keep <= |c| && c' == c[..keep] && CutAt(t, t', c, keep, last))
  }

  lemma Shortened(b: Boot, f: FileState, q: FileState, writable: bool, free: int, nothing: bool, n: nat, m: nat)
    requires b.cluster > 0 && |f.bytes| == b.Bytes(|f.chain|) && f.pos < |f.bytes| && free >= 0 && (nothing ==> m == n)
    requires nothing <==> b.Vcn(f.pos) + 1 == |f.chain|
    requires q == if nothing then f else Truncated(f, b)
    ensures !nothing ==> 0 < b.Vcn(f.pos) + 1 <= |f.chain| && q.chain == f.chain[..b.Vcn(f.pos) + 1]
    ensures Did(Plain(writable, f.bytes, f.filesize, f.pos, n), Plain(writable, q.bytes, q.filesize, q.pos, m), Shorten,
        b.cluster, free, free, Note([], m))
  {
    DivBound(f.pos, |f.chain|, b.cluster);
    WholeClusters(b, |f.chain|);
    WholeClusters(b, b.Vcn(f.pos) + 1);
  }

  // ---- one operation on one of the files ----

  /** Growing the chain cs and touching no other leaves every other open file as it was. */
  lemma Beside(b: Chain, fat: Fat, boot: Boot, d: seq<Byte>, t: seq<nat>, p: Plain, e: seq<Byte>, t': seq<nat>, cs: seq<nat>,
               cs': seq<nat>, added: seq<nat>)
    requires FileAt(b, fat, boot, d, t, p) && Apart(cs, b.Cs()) && |t| == fat.g.size + 2 <= fat.g.Last()
    requires Grew(cs, t, cs', t', added, fat.g.Last()) && OnlyChain(d, e, boot, fat.g.size, cs')
    ensures FileAt(b, fat, boot, e, t', p)
  {
    hide Logical, Flatten;
    StaysApart(cs, t, cs', t', added, fat.g.Last(), b.Cs());
    OtherChainKept(d, e, boot, fat.g.size, cs', b.Cs());
  }

  /** So does truncating it. */
  lemma BesideCut(b: Chain, fat: Fat, boot: Boot, d: seq<Byte>, t: seq<nat>, p: Plain, e: seq<Byte>, t': seq<nat>, cs: seq<nat>,
                  cs': seq<nat>, keep: nat, nothing: bool)
    requires FileAt(b, fat, boot, d, t, p) && Apart(cs, b.Cs()) && SameData(d, e, boot)
    requires Cutting(t, cs, t', cs', keep, nothing, fat.g.Last())
    ensures FileAt(b, fat, boot, e, t', p)
  {
    hide Logical, Flatten;
    CutApart(t, t', cs, b.Cs(), fat.g.Last(), keep, nothing);
    SameDataLogical(d, e, boot, fat.g.size, b.Cs());
  }

  /** Different files share no cluster. */
  lemma AllApart(css: seq<seq<nat>>, t: seq<nat>, others: map<nat, seq<nat>>, last: nat, i: nat, k: nat)
    requires Partitioned(Volume(t, Chains(css, others)), last) && i < |css| && k < |css| && i != k
    ensures Apart(css[i], css[k])
  {
    var cs := Chains(css, others);
    if css[i] != [] && css[k] != [] {
      assert i in cs && k in cs && cs[i] == css[i] && cs[k] == css[k];
    }
  }

  /** The chains after one of the files got another. */
  lemma OneChain(css: seq<seq<nat>>, others: map<nat, seq<nat>>, i: nat, c: seq<nat>)
    requires i < |css|
    ensures Chains(css[i := c], others) == if c == [] then Chains(css, others) - {i} else Chains(css, others)[i := c]
    ensures i in Chains(css, others) <==> css[i] != []
    ensures css[i] != [] ==> Chains(css, others)[i] == css[i]
  {
    var x, y := Chains(css[i := c], others), Chains(css, others);
    forall k: nat | k != i ensures (k in x <==> k in y) && (k in x ==> x[k] == y[k]) {
    }
    hide Chains;
  }

  /** Growing a file keeps the clusters shared out. */
  lemma SharedGrowth(css: seq<seq<nat>>, others: map<nat, seq<nat>>, t: seq<nat>, t': seq<nat>, i: nat, c': seq<nat>,
                     added: seq<nat>, last: nat)
    requires i < |css| && Partitioned(Volume(t, Chains(css, others)), last) && Grew(css[i], t, c', t', added, last)
    ensures Partitioned(Volume(t', Chains(css[i := c'], others)), last)
  {
    OneChain(css, others, i, c');
    hide Chains, Partitioned;
    var cs := Chains(css, others);
    GrewKeeps(Volume(t, cs), i, css[i], t', c', added, last);
    if c' == [] {
      assert cs - {i} == cs;
    }
  }

  /** So does truncating it. */
  lemma SharedCut(css: seq<seq<nat>>, others: map<nat, seq<nat>>, t: seq<nat>, t': seq<nat>, i: nat, c': seq<nat>,
                  keep: nat, nothing: bool, last: nat)
    requires i < |css| && Partitioned(Volume(t, Chains(css, others)), last)
    requires Cutting(t, css[i], t', c', keep, nothing, last)
    ensures Partitioned(Volume(t', Chains(css[i := c'], others)), last)
  {
    OneChain(css, others, i, c');
    hide Chains, Partitioned;
    var cs := Chains(css, others);
    if nothing {
      assert (if c' == [] then cs - {i} else cs[i := c']) == cs;
    } else {
      CutKeeps(Volume(t, cs), i, keep, Volume(t', cs[i := c']), last);
    }
  }

  /** After an operation on the i-th file that may append clusters every file is what the world says. */
  lemma FilesGrown(files: seq<Chain>, fat: Fat, boot: Boot, css: seq<seq<nat>>, others: map<nat, seq<nat>>, d: seq<Byte>,
                   t: seq<nat>, ps: seq<Plain>, i: nat, e: seq<Byte>, t': seq<nat>, q: Plain, added: seq<nat>)
    requires |css| == |ps| == |files| && i < |files| && |t| == fat.g.size + 2
    requires Partitioned(Volume(t, Chains(css, others)), fat.g.Last())
    requires forall k {:trigger files[k]} :: 0 <= k < |files| && k != i ==>
      files[k].Cs() == css[k] && FileAt(files[k], fat, boot, d, t, ps[k])
    requires FileAt(files[i], fat, boot, e, t', q)
    requires Grew(css[i], t, files[i].Cs(), t', added, fat.g.Last()) && OnlyChain(d, e, boot, fat.g.size, files[i].Cs())
    ensures FilesAt(files, fat, boot, e, t', ps[i := q]) && Css(files) == css[i := files[i].Cs()]
    ensures Partitioned(Volume(t', Chains(Css(files), others)), fat.g.Last())
  {
    hide FileAt, Grew, OnlyChain, Chains, Chain.Cs;
    forall k {:trigger files[k]} | 0 <= k < |files| && k != i ensures FileAt(files[k], fat, boot, e, t', ps[k]) {
      AllApart(css, t, others, fat.g.Last(), i, k);
      Beside(files[k], fat, boot, d, t, ps[k], e, t', css[i], files[i].Cs(), added);
    }
    assert Css(files) == css[i := files[i].Cs()];
    SharedGrowth(css, others, t, t', i, files[i].Cs(), added, fat.g.Last());
  }

  /** The same after a truncation. */
  lemma FilesCut(files: seq<Chain>, fat: Fat, boot: Boot, css: seq<seq<nat>>, others: map<nat, seq<nat>>, d: seq<Byte>,
                 t: seq<nat>, ps: seq<Plain>, i: nat, e: seq<Byte>, t': seq<nat>, q: Plain, keep: nat, nothing: bool)
    requires |css| == |ps| == |files| && i < |files| && |t| == fat.g.size + 2
    requires Partitioned(Volume(t, Chains(css, others)), fat.g.Last())
    requires forall k {:trigger files[k]} :: 0 <= k < |files| && k != i ==>
      files[k].Cs() == css[k] && FileAt(files[k], fat, boot, d, t, ps[k])
    requires FileAt(files[i], fat, boot, e, t', q) && SameData(d, e, boot)
    requires Cutting(t, css[i], t', files[i].Cs(), keep, nothing, fat.g.Last())
    ensures FilesAt(files, fat, boot, e, t', ps[i := q]) && Css(files) == css[i := files[i].Cs()]
    ensures Partitioned(Volume(t', Chains(Css(files), others)), fat.g.Last())
  {
    hide FileAt, Cutting, SameData, Chains, Chain.Cs;
    forall k {:trigger files[k]} | 0 <= k < |files| && k != i ensures FileAt(files[k], fat, boot, e, t', ps[k]) {
      AllApart(css, t, others, fat.g.Last(), i, k);
      BesideCut(files[k], fat, boot, d, t, ps[k], e, t', css[i], files[i].Cs(), keep, nothing);
    }
    assert Css(files) == css[i := files[i].Cs()];
    SharedCut(css, others, t, t', i, files[i].Cs(), keep, nothing, fat.g.Last());
  }

  /** One operation on one of the files. */
  method Run(files: seq<Chain>, fat: Fat, boot: Boot, ghost others: map<nat, seq<nat>>, ghost w: World, order: Order)
    returns (r: Answer, ghost note: Note)
    requires Is(files, fat, boot, others, w) && w.Legal(order.file, order.op)
    modifies files, fat, fat.stream
    ensures w.Noted(order.file, order.op, note) && Is(files, fat, boot, others, w.Step(order.file, order.op, note))
    ensures r == w.files[order.file].Output(order.op, w.cluster, w.free)
  {
    hide Fat.Valid, Chain.Valid, Chain.Cs, Seen, Chains, Partitioned, SameData, FileAt, OnlyChain, Grew, Cutting, Css;
    var i := order.file;
    var a := files[i];
    OpenFile(a, fat, boot, w.files[i]);
    ghost var d, t, css := fat.stream.data, fat.T(), Css(files);
    if order.op.Shorten? {
      ghost var keep;
      var nothing;
      Basics(a);
      nothing, keep, note := CutOne(a, w.files[i]);
      r := Done(true);
      FileOpen(a);
      FilesCut(files, fat, boot, css, others, d, t, w.files, i, fat.stream.data, fat.T(), Seen(a), keep, nothing);
    } else {
      ghost var added;
      r, note, added := Grow(a, order.op, w.files[i]);
      FileOpen(a);
      FilesGrown(files, fat, boot, css, others, d, t, w.files, i, fat.stream.data, fat.T(), Seen(a), added);
    }
  }

  /** A seek, a read or a write. */
  method Grow(a: Chain, op: Command, ghost p: Plain) returns (r: Answer, ghost note: Note, ghost added: seq<nat>)
    requires a.Valid() && p == Seen(a) && p.Legal(op) && !op.Shorten?
    modifies a, a.fat, a.stream
    ensures a.Valid() && a.boot.cluster > 0
    ensures Did(p, Seen(a), op, a.boot.cluster, old(a.fat.freeClusters), a.fat.freeClusters, note)
    ensures Grew(old(a.Cs()), old(a.fat.T()), a.Cs(), a.fat.T(), added, a.fat.g.Last())
    ensures OnlyChain(old(a.stream.data), a.stream.data, a.boot, a.fat.g.size, a.Cs())
    ensures r == p.Output(op, a.boot.cluster, old(a.fat.freeClusters))
  {
    hide Chain.Valid, Chain.Cs, Seen, SameData, OnlyChain, Did;
    Basics(a);
    match op {
      case Go(offset, whence) =>
        var ok;
        ok, note, added := GoOne(a, offset, whence, p);
        r := Done(ok);
      case Get(n) =>
        ghost var d, cs, t := a.stream.data, a.Cs(), a.fat.T();
        note, added := Note([], 0), [];
        var got := GetOne(a, n, p);
        r := Got(got);
        Basics(a);
        NotGrown(cs, t, a.fat.g.Last());
        SameDataSelf(d, a.boot);
        SameDataOnly(d, d, a.boot, a.fat.g.size, cs);
      case Store(s) =>
        var ok;
        ok, note, added := StoreOne(a, s, p);
        r := Done(ok);
    }
  }

  /** Whatever the fragmentation, however the clusters are laid out and whatever is done to which file: every answer is
      the plain files', every file is left as they are, and the clusters stay shared out. It stops at the first order
      that is not legal. */
  method Replay(files: seq<Chain>, fat: Fat, boot: Boot, ghost others: map<nat, seq<nat>>, orders: seq<Order>, ghost w: World)
    returns (n: nat, out: seq<Answer>, ghost ws: seq<World>, ghost notes: seq<Note>)
    requires Is(files, fat, boot, others, w)
    modifies files, fat, fat.stream
    ensures n <= |orders| && IsRun(ws, orders[..n], notes, out) && ws[0] == w
    ensures Is(files, fat, boot, others, ws[n]) && (n < |orders| ==> !ws[n].Legal(orders[n].file, orders[n].op))
  {
    hide Is, World.Step, World.Noted, Plain.Output;
    n, out, ws, notes := 0, [], [w], [];
    while n < |orders|
      invariant n <= |orders| && IsRun(ws, orders[..n], notes, out) && ws[0] == w && Is(files, fat, boot, others, ws[n])
    {
      var legal := MayRun(files, fat, boot, others, ws[n], orders[n]);
      if !legal {
        return;
      }
      var r;
      ghost var note;
      r, note := Run(files, fat, boot, others, ws[n], orders[n]);
      ws := ws + [ws[n].Step(orders[n].file, orders[n].op, note)];
      notes := notes + [note];
      out := out + [r];
      assert orders[..n + 1] == orders[..n] + [orders[n]];
      n := n + 1;
    }
  }

  /** Whether an order is legal can be told from the open file. */
  method MayRun(files: seq<Chain>, fat: Fat, boot: Boot, ghost others: map<nat, seq<nat>>, ghost w: World, order: Order)
    returns (legal: bool)
    requires Is(files, fat, boot, others, w)
    ensures legal == w.Legal(order.file, order.op)
  {
    hide Fat.Valid, Chain.Valid, Chain.Cs, Seen, Chains, Partitioned, FileAt, Css;
    if order.file >= |files| {
      return false;
    }
    var a := files[order.file];
    OpenFile(a, fat, boot, w.files[order.file]);
    match order.op {
      case Go(offset, whence) => legal := a.Target(offset, whence) >= 0;
      case Shorten => legal := a.pos < a.size;
      case _ => legal := true;
    }
  }
}
