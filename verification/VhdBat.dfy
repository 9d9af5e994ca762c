/** The block allocation table of a VHD container: its memo of decoded entries, and the self-test on opening. */
module VhdBat {
  import opened Bytes
  import opened VhdLayers

  /** The container as the table sees it: entries and raw block size are all that matters. */
  function Seen(d: seq<Byte>, offset: nat, size: nat, bsize: nat): Layer {
    Layer(d, Geo(0, bsize, offset, size), 0)
  }

  /** Space for a block between the start of the file and the footer. */
  predicate InFile(a: Layer, i: nat) {
    a.Base(i) + a.g.Raw() <= |a.d| - 512
  }

  predicate Repeated(a: Layer, i: nat) {
    a.Has(i) && exists j {:trigger a.Entry(j)} :: 0 <= j < i && a.Entry(j) == a.Entry(i)
  }

  /** An entry the self-test objects to. */
  predicate Bad(a: Layer, i: nat) {
    a.Has(i) && (Repeated(a, i) || !InFile(a, i))
  }

  /** The first such entry from i on, or the length of the table. */
  function FirstBad(a: Layer, i: nat): (b: nat)
    requires i <= a.g.entries
    ensures i <= b <= a.g.entries
    ensures b < a.g.entries ==> Bad(a, b)
    ensures forall j {:trigger Bad(a, j)} :: i <= j < b ==> !Bad(a, j)
    decreases a.g.entries - i
  {
    if i == a.g.entries || Bad(a, i) then i else FirstBad(a, i + 1)
  }

  /** How many raw blocks fit in front of the footer. */
  function Room(a: Layer): int {
    var last := |a.d| - 512 - a.g.Raw();
    (last + a.g.Raw() - last % a.g.Raw()) / a.g.Raw()
  }

  /** The outcome of the self-test. */
  function Verdict(a: Layer): int {
    if a.Slot(a.g.entries) > |a.d| then -1
    else
      var b := FirstBad(a, 0);
      if b - a.Used(b) + Room(a) != a.g.entries then 0
      else if b == a.g.entries then 1
      else if Repeated(a, b) then -2
      else -3
  }

  ghost predicate MemoOf(m: map<nat, nat>, d: seq<Byte>, offset: nat, size: nat) {
    forall i {:trigger i in m} :: i in m ==> i < size && m[i] == BE32(d, offset + 4 * i)
  }

  class Bat {
    const stream: File
    const offset: nat
    const size: nat
    const bsize: nat
    var decoded: map<nat, nat>
    var isvalid: int

    /** The memo holds what the table holds. */
    ghost predicate Agrees()
      reads this`decoded, stream`data
    {
      MemoOf(decoded, stream.data, offset, size)
    }

    constructor (stream: File, offset: nat, blocks: nat, blockSize: nat)
      modifies stream`pos
      ensures Agrees() && this.stream == stream && this.offset == offset && size == blocks && bsize == blockSize
      ensures isvalid == Verdict(Seen(stream.data, offset, blocks, blockSize))
    {
      this.stream := stream;
      this.offset := offset;
      size := blocks;
      bsize := blockSize;
      decoded := map[];
      isvalid := 1;
      new;
      SelfTest();
    }

    /** Entry of a block; a negative index counts from the end. */
    method Get(index: int) returns (slot: nat)
      requires Agrees() && 0 <= index + size && index < size && offset + 4 * size <= |stream.data|
      modifies this`decoded, stream`pos
      ensures Agrees() && stream.pos == old(stream.pos)
      ensures slot == BE32(stream.data, offset + 4 * if index < 0 then index + size else index)
    {
      hide BE32;
      var i := Wrapped(index, size);
      if i in decoded && decoded[i] != 0 {
        return decoded[i];
      }
      var opos := stream.pos;
      stream.Seek(offset + 4 * i);
      var s := stream.Read(4);
      ReadWord(stream.data, offset + 4 * i);
      hide ReadAt, U32BE;
      slot := U32BE(s, 0);
      decoded := decoded[i := slot];
      stream.Seek(opos);
    }

    method Set(index: int, value: nat)
      requires Agrees() && 0 <= index + size && index < size && offset + 4 * size <= |stream.data| && value <= UNUSED
      modifies this`decoded, stream
      ensures Agrees() && stream.pos == old(stream.pos)
      ensures stream.data == Overwrite(old(stream.data), offset + 4 * (if index < 0 then index + size else
          index), Pack32BE(value))
    {
      hide BE32, Overwrite, Pack32BE;
      var i := Wrapped(index, size);
      ghost var d, m := stream.data, decoded;
      decoded := decoded[i := value];
      var opos := stream.pos;
      stream.Seek(offset + 4 * i);
      stream.Write(Pack32BE(value));
      stream.Seek(opos);
      hide MemoOf;
      MemoSet(d, m, offset, size, i, value);
    }

    /** _isvalid: walks the table, stops at the first bad entry, then compares the counts whatever it found. */
    method SelfTest()
      requires Agrees() && isvalid == 1
      modifies this, stream`pos
      ensures Agrees() && isvalid == Verdict(Seen(stream.data, offset, size, bsize))
    {
      stream.Seek(|stream.data|);
      var ssize := stream.pos;
      if offset + 4 * size > ssize {
        isvalid := -1;
        return;
      }
      var raw := bsize + Max(512, bsize / 512 / 8);
      var last := ssize - 512 - raw;
      var first := last % raw;
      var room := (last + raw - first) / raw;
      hide FirstBad, Repeated, BE32, Layer.Used;
      var unallocated := Scan(ssize, raw, last);
      if unallocated + room != size {
        isvalid := 0;
      }
    }

    /** The walk over the table. */
    method Scan(ssize: int, raw: nat, last: int) returns (unallocated: nat)
      requires Agrees() && isvalid == 1 && offset + 4 * size <= |stream.data|
      requires ssize == |stream.data| && raw == Seen(stream.data, offset, size, bsize).g.Raw() &&
          last == ssize - 512 - raw
      modifies this`decoded, this`isvalid, stream`pos
      ensures Agrees()
      ensures var a := Seen(stream.data, offset, size, bsize); var b := FirstBad(a, 0);
        unallocated == b - a.Used(b) && isvalid == if b == size then 1 else if Repeated(a, b) then -2 else -3
    {
      hide BE32, Agrees, FirstBad, Layer.Used, Bad, SeenBefore, Repeated, InFile;
      ghost var a := Seen(stream.data, offset, size, bsize);
      unallocated := 0;
      var seen: seq<nat> := [];
      var i := 0;
      WalkStarts(a);
      while i < size
        invariant Agrees() && isvalid == 1 && i <= size
        invariant Walked(a, i, unallocated, seen)
      {
        var e := Get(i);
        hide Walked;
        WalkStep(a, i, unallocated, seen);
        Beyond(a, i, e, ssize, raw, last);
        if e == UNUSED {
          unallocated := unallocated + 1;
          i := i + 1;
          continue;
        }
        if e in seen {
          isvalid := -2;
          return;
        }
        if e * 512 > last || e * 512 + raw > ssize {
          isvalid := -3;
          return;
        }
        seen := seen + [e];
        i := i + 1;
      }
      WalkEnds(a, unallocated, seen);
    }
  }

  function Wrapped(index: int, size: nat): nat
    requires 0 <= index + size && index < size
  {
    if index < 0 then index + size else index
  }

  lemma ReadWord(d: seq<Byte>, p: nat)
    requires p + 4 <= |d|
    ensures |ReadAt(d, p, 4)| == 4 && U32BE(ReadAt(d, p, 4), 0) == BE32(d, p)
  {
  }

  lemma MemoSet(d: seq<Byte>, m: map<nat, nat>, offset: nat, size: nat, i: nat, value: nat)
    requires MemoOf(m, d, offset, size) && value <= UNUSED && i < size
    ensures MemoOf(m[i := value], Overwrite(d, offset + 4 * i, Pack32BE(value)), offset, size)
  {
    hide BE32, Overwrite;
    PackedBE32(d, offset + 4 * i, value);
    var s := Pack32BE(value);
    hide Pack32BE;
    forall j | j in m[i := value]
      ensures j < size && m[i := value][j] == BE32(Overwrite(d, offset + 4 * i, s), offset + 4 * j)
    {
      if j != i {
        OtherEntry(d, offset, i, j, s);
        assert j in m;
      }
    }
  }

  /** The memo depends on the table alone. */
  lemma MemoKept(m: map<nat, nat>, d: seq<Byte>, d': seq<Byte>, offset: nat, size: nat)
    requires MemoOf(m, d, offset, size)
    requires forall k {:trigger At(d', k)} :: offset <= k < offset + 4 * size ==> At(d', k) == At(d, k)
    ensures MemoOf(m, d', offset, size)
  {
    hide At;
    forall i | i in m ensures i < size && m[i] == BE32(d', offset + 4 * i) {
    }
  }

  lemma OtherEntry(d: seq<Byte>, offset: nat, i: nat, j: nat, s: seq<Byte>)
    requires i != j && |s| == 4
    ensures BE32(Overwrite(d, offset + 4 * i, s), offset + 4 * j) == BE32(d, offset + 4 * j)
  {
    hide Overwrite, At;
    var k := offset + 4 * j;
    AtOverwrite(d, offset + 4 * i, s, k);
    AtOverwrite(d, offset + 4 * i, s, k + 1);
    AtOverwrite(d, offset + 4 * i, s, k + 2);
    AtOverwrite(d, offset + 4 * i, s, k + 3);
  }

  // ---- the walk of the self-test ----

  /** seen lists the entries in use before i. */
  ghost predicate SeenBefore(a: Layer, i: nat, seen: seq<nat>) {
    && (forall v {:trigger v in seen} :: v in seen ==> exists j {:trigger a.Entry(j)} :: 0 <= j < i && a.Entry(j) == v)
    && (forall j {:trigger a.Entry(j)} :: 0 <= j < i && a.Has(j) ==> a.Entry(j) in seen)
  }

  ghost predicate Walked(a: Layer, i: nat, unallocated: nat, seen: seq<nat>) {
    i <= a.g.entries && unallocated == i - a.Used(i) && SeenBefore(a, i, seen) && FirstBad(a, 0) == FirstBad(a, i)
  }

  lemma WalkStarts(a: Layer)
    ensures Walked(a, 0, 0, [])
  {
  }

  lemma SeenRepeated(a: Layer, i: nat, seen: seq<nat>)
    requires SeenBefore(a, i, seen) && a.Has(i)
    ensures a.Entry(i) in seen <==> Repeated(a, i)
  {
    hide BE32, Layer.Entry;
    if Repeated(a, i) {
      var j :| 0 <= j < i && a.Entry(j) == a.Entry(i);
      assert a.Has(j);
    }
  }

  lemma SeenMore(a: Layer, i: nat, seen: seq<nat>)
    requires SeenBefore(a, i, seen) && a.Has(i)
    ensures SeenBefore(a, i + 1, seen + [a.Entry(i)])
  {
    hide BE32, Layer.Entry;
    var s := seen + [a.Entry(i)];
    forall v | v in s ensures exists j {:trigger a.Entry(j)} :: 0 <= j < i + 1 && a.Entry(j) == v {
      if v in seen {
        var j :| 0 <= j < i && a.Entry(j) == v;
        assert j < i + 1;
      }
    }
  }

  lemma SeenSame(a: Layer, i: nat, seen: seq<nat>)
    requires SeenBefore(a, i, seen) && !a.Has(i)
    ensures SeenBefore(a, i + 1, seen)
  {
    hide BE32, Layer.Entry;
    forall v | v in seen ensures exists j {:trigger a.Entry(j)} :: 0 <= j < i + 1 && a.Entry(j) == v {
      var j :| 0 <= j < i && a.Entry(j) == v;
      assert j < i + 1;
    }
  }

  lemma WalkStep(a: Layer, i: nat, unallocated: nat, seen: seq<nat>)
    requires Walked(a, i, unallocated, seen) && i < a.g.entries
    ensures !a.Has(i) ==> Walked(a, i + 1, unallocated + 1, seen)
    ensures a.Has(i) ==> (a.Entry(i) in seen <==> Repeated(a, i))
    ensures a.Has(i) && Bad(a, i) ==> FirstBad(a, 0) == i && unallocated == i - a.Used(i)
    ensures a.Has(i) && !Bad(a, i) ==> Walked(a, i + 1, unallocated, seen + [a.Entry(i)])
    ensures Bad(a, i) <==> a.Has(i) && (Repeated(a, i) || !InFile(a, i))
  {
    hide BE32;
    if a.Has(i) {
      SeenRepeated(a, i, seen);
      SeenMore(a, i, seen);
    } else {
      SeenSame(a, i, seen);
    }
    hide SeenBefore, Repeated, InFile, Layer.Entry;
  }

  lemma Beyond(a: Layer, i: nat, e: nat, ssize: int, raw: nat, last: int)
    requires e == a.Entry(i) && ssize == |a.d| && raw == a.g.Raw() && last == ssize - 512 - raw
    ensures e * 512 > last || e * 512 + raw > ssize <==> !InFile(a, i)
  {
  }

  lemma WalkEnds(a: Layer, unallocated: nat, seen: seq<nat>)
    requires Walked(a, a.g.entries, unallocated, seen)
    ensures FirstBad(a, 0) == a.g.entries && unallocated == a.g.entries - a.Used(a.g.entries)
  {
  }

  // ---- what the self-test tells ----

  lemma SeenSameEntries(a: Layer, i: nat)
    ensures Seen(a.d, a.g.table, a.g.entries, a.g.block).Entry(i) == a.Entry(i)
    ensures Seen(a.d, a.g.table, a.g.entries, a.g.block).g.Raw() == a.g.Raw()
  {
  }

  lemma NoBadEntry(a: Layer, i: nat)
    requires a.Placed() && a.Disjoint() && i < a.g.entries
    ensures !Bad(Seen(a.d, a.g.table, a.g.entries, a.g.block), i)
  {
    var b := Seen(a.d, a.g.table, a.g.entries, a.g.block);
    SeenSameEntries(a, i);
    hide Layer.Entry;
    if b.Has(i) {
      assert a.Has(i);
      forall j | 0 <= j < i ensures b.Entry(j) != b.Entry(i) {
        SeenSameEntries(a, j);
        assert a.Has(j) ==> a.Base(i) != a.Base(j);
      }
    }
  }

  /** A container that keeps its layout is never rejected. */
  lemma LaidOutAccepted(a: Layer)
    requires a.Layout()
    ensures Verdict(Seen(a.d, a.g.table, a.g.entries, a.g.block)) >= 0
  {
    var b := Seen(a.d, a.g.table, a.g.entries, a.g.block);
    assert b.Slot(b.g.entries) <= |a.d| by {
      assert a.Framed();
      Product(a.Used(a.g.entries), a.g.Raw());
    }
    forall i | 0 <= i < a.g.entries ensures !Bad(b, i) {
      NoBadEntry(a, i);
    }
    hide Bad, Layer.Layout, Layer.Used;
  }

  /** b is the first entry of the table the self-test objects to. */
  ghost predicate Stops(a: Layer, b: nat) {
    b < a.g.entries && Bad(a, b) && forall j {:trigger Bad(a, j)} :: 0 <= j < b ==> !Bad(a, j)
  }

  lemma StopsAt(a: Layer, b: nat)
    ensures Stops(a, b) <==> b < a.g.entries && FirstBad(a, 0) == b
  {
    hide Bad, FirstBad;
    var f := FirstBad(a, 0);
    assert f < b && b <= a.g.entries ==> Bad(a, f);
  }

  /** The counts of unused entries before b and of blocks the file has room for add up to the table. */
  ghost predicate CountsAgree(a: Layer, b: nat) { b - a.Used(b) + Room(a) == a.g.entries }

  lemma VerdictAt(a: Layer, b: nat)
    requires b == FirstBad(a, 0)
    ensures Verdict(a) < 0 <==> a.Slot(a.g.entries) > |a.d| || (b < a.g.entries && CountsAgree(a, b))
  {
    hide Layer.Used, Room, Repeated, FirstBad;
  }

  /** The self-test rejects a table with a bad entry exactly when the counts up to it happen to agree. */
  lemma RejectsExactly(a: Layer)
    ensures Verdict(a) < 0 <==>
      a.Slot(a.g.entries) > |a.d| || exists b: nat {:trigger Stops(a, b)} :: Stops(a, b) && CountsAgree(a, b)
  {
    var f := FirstBad(a, 0);
    VerdictAt(a, f);
    StopsAt(a, f);
    forall b: nat ensures Stops(a, b) ==> b == f {
      StopsAt(a, b);
    }
    hide *;
  }

  /** Two blocks at one address pass: the mismatch of the counts hides the duplicate. */
  lemma DuplicateAccepted() returns (a: Layer)
    ensures a.g.entries == 2 && Repeated(a, 1) && a.Slot(2) <= |a.d| && Verdict(a) == 0
  {
    var d := seq(3584, k => if k == 1539 || k == 1543 then 4 else 0);
    a := Layer(d, Geo(1024, 512, 1536, 2), 2048);
    assert a.Entry(0) == 4 && a.Entry(1) == 4;
    assert a.Used(1) == 1;
    assert InFile(a, 0) && !Bad(a, 0);
    assert FirstBad(a, 1) == 1;
    assert FirstBad(a, 0) == 1;
    assert Room(a) == 3;
  }
}
