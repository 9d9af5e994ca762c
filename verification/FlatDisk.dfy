/** The cached disk as a flat array of bytes with a position, and what may be asked of it. */
module FlatDisk {
  import opened Bytes

  function Clamped(to: int, size: nat): nat { if to > size then size else if to < 0 then 0 else to }

  /** How many bytes a read of n gets. */
  function Asked(pos: nat, n: int, size: nat): nat
    requires pos <= size
  {
    var want := if n < 0 then size else n;
    if pos + want > size then size - pos else want
  }

  /** All there is from the position on, or n bytes of it. */
  lemma AskedIs(pos: nat, n: int, size: nat)
    requires pos <= size
    ensures Asked(pos, n, size) == if n < 0 then size - pos else Min(n, size - pos)
    ensures pos + Asked(pos, n, size) <= size
  {
  }

  /** An operation of a user: a seek, a read or a write at the position, a flush. */
  datatype Op = Go(offset: int, whence: int) | Get(n: int) | Store(s: seq<Byte>) | Commit

  /** A flat array with a position; ready: a write would go there. */
  datatype Flat = Flat(d: seq<Byte>, pos: nat, ready: bool) {
    /** Where a seek goes. */
    function To(op: Op): int
      requires op.Go?
    {
      if op.whence == 1 then pos + op.offset
      else if op.whence == 2 then (if |d| > 0 then |d| + op.offset else pos)
      else op.offset
    }

    /** No read of nothing at a sector boundary; writes end on the disk, and follow a seek, another write or a read that
        leaves them ready - not a flush, after which it depends on the cache where they go. */
    predicate Legal(op: Op)
      requires op.Go? || pos <= |d|
    {
      match op
      case Go(_, _) => true
      case Get(n) => Asked(pos, n, |d|) > 0 || pos % 512 != 0
      case Store(s) => s == [] || (ready && pos + |s| <= |d|)
      case Commit => true
    }

    /** The bytes an operation returns. */
    function Output(op: Op): seq<Byte>
      requires op.Go? || pos <= |d|
    {
      if op.Get? then d[pos..pos + Asked(pos, op.n, |d|)] else []
    }

    /** The array after an operation; a read leaves a write ready if it was of nothing, or of more than a sector from
        boundary to boundary. */
    function Step(op: Op): (f: Flat)
      requires op.Go? || pos <= |d|
      ensures f.pos <= |f.d| && (Legal(op) ==> |f.d| == |d|)
    {
      match op
      case Go(_, _) => Flat(d, Clamped(To(op), |d|), true)
      case Get(n) =>
        var got := Asked(pos, n, |d|);
        Flat(d, pos + got, got == 0 || (512 < got && pos % 512 == 0 && (pos + got) % 512 == 0))
      case Store(s) => if s == [] then this else Flat(Overwrite(d, pos, s), pos + |s|, true)
      case Commit => Flat(d, pos, false)
    }
  }

  /** What one operation does, in numbers and bytes. */
  predicate Moved(f: Flat, op: Op, g: Flat, r: seq<Byte>) {
    match op
    case Go(offset, whence) =>
      && g.d == f.d && r == []
      && g.pos == Max(0, Min(|f.d|, if whence == 1 then f.pos + offset else
          if whence == 2 then (if f.d == [] then f.pos else |f.d| + offset) else offset))
    case Get(n) =>
      && g.d == f.d && f.pos <= g.pos <= |f.d| && r == f.d[f.pos..g.pos]
      && |r| == if n < 0 then |f.d| - f.pos else Min(n, |f.d| - f.pos)
    case Store(s) =>
      g.pos == f.pos + |s| <= |f.d| && r == [] && g.d == if s == [] then f.d else f.d[..f.pos] + s + f.d[g.pos..]
    case Commit => g.d == f.d && g.pos == f.pos && r == []
  }

  lemma MovedIs(f: Flat, op: Op)
    requires (op.Go? || f.pos <= |f.d|) && f.Legal(op)
    ensures Moved(f, op, f.Step(op), f.Output(op))
  {
    if op.Get? {
      AskedIs(f.pos, op.n, |f.d|);
      hide Asked;
    }
  }

  /** Every operation of a history is legal where it comes. */
  predicate AllLegal(f: Flat, ops: seq<Op>)
    requires f.pos <= |f.d|
    decreases |ops|
  {
    ops == [] || (f.Legal(ops[0]) && AllLegal(f.Step(ops[0]), ops[1..]))
  }

  function Steps(f: Flat, ops: seq<Op>): (g: Flat)
    requires f.pos <= |f.d|
    decreases |ops|
  {
    if ops == [] then f else Steps(f.Step(ops[0]), ops[1..])
  }

  function Outputs(f: Flat, ops: seq<Op>): seq<seq<Byte>>
    requires f.pos <= |f.d|
    decreases |ops|
  {
    if ops == [] then [] else [f.Output(ops[0])] + Outputs(f.Step(ops[0]), ops[1..])
  }

  /** A disk as the drivers above the cache use it. */
  class DiskStream {
    var data: seq<Byte>
    var pos: nat
    ghost var ready: bool

    ghost function Now(): Flat
      reads this
    {
      Flat(data, pos, ready)
    }

    constructor (d: seq<Byte>)
      ensures data == d && pos == 0 && ready
    {
      data, pos, ready := d, 0, true;
    }

    /** A legal operation; the cached disk answers it and changes in the same way. */
    method Do(op: Op) returns (r: seq<Byte>)
      requires !op.Commit? && (op.Go? || pos <= |data|) && Now().Legal(op)
      modifies this`pos, this`ready
      modifies if op.Store? then {this} else {}
      ensures pos <= |data| && Now() == old(Now()).Step(op) && r == old(Now()).Output(op)
      ensures Moved(old(Now()), op, Now(), r)
    {
      hide Moved;
      MovedIs(Now(), op);
      ghost var f := Now();
      r := [];
      match op
      case Go(offset, whence) =>
        pos := Clamped(Flat(data, pos, true).To(op), |data|);
        ready := true;
      case Get(n) =>
        r := data[pos..pos + Asked(pos, n, |data|)];
        pos := pos + |r|;
        ready := f.Step(op).ready;
      case Store(s) =>
        data := Overwrite(data, pos, s);
        pos := pos + |s|;
    }

    method Seek(p: nat)
      requires p <= |data|
      modifies this`pos, this`ready
      ensures pos == p && ready
    {
      var _ := Do(Go(p, 0));
    }

    /** Something is there to be read. */
    method Read(n: nat) returns (s: seq<Byte>)
      requires n > 0 && pos < |data|
      modifies this`pos, this`ready
      ensures s == ReadAt(data, old(pos), n) && pos == old(pos) + |s|
    {
      s := Do(Get(n));
    }

    /** A write inside the disk, after a seek or another write. */
    method Write(s: seq<Byte>)
      requires ready && pos + |s| <= |data|
      modifies this
      ensures data == Overwrite(old(data), old(pos), s) && pos == old(pos) + |s| && ready
    {
      var _ := Do(Store(s));
    }
  }
}
