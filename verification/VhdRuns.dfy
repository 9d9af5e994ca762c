/** Any history of operations on a VHD image, against the same history on a flat array of bytes with a position, and
    whether the container can be opened again. */
module VhdRuns {
  import opened Bytes
  import opened VhdFooter
  import opened VhdLayers
  import opened VhdReads
  import opened VhdWrites
  import opened VhdImage

  /** An operation of a user: a seek, a read or a write at the position. */
  datatype Op = Go(offset: int, whence: int) | Get(n: int) | Store(s: seq<Byte>)

  /** What an operation returns: the bytes read, or whether a seek stayed on the disk, where the code raises if not. */
  datatype Answer = Got(r: seq<Byte>) | Sought(ok: bool) | Stored

  /** A flat array with a position. */
  datatype Flat = Flat(v: seq<Byte>, pos: nat) {
    /** Reads start on the disk, or at its end; writes end on it. */
    predicate Legal(op: Op) {
      match op
      case Go(_, _) => true
      case Get(n) => pos <= |v| && n >= -1
      case Store(s) => pos + |s| <= |v|
    }

    /** How many bytes a read gets. */
    function Got(n: int): nat
      requires pos <= |v| && n >= -1
    {
      if n == -1 || pos + n > |v| then |v| - pos else n
    }

    function To(op: Op): nat
      requires op.Go?
    {
      Max(0, if op.whence == 0 then op.offset else if op.whence == 1 then pos + op.offset else |v| + op.offset)
    }

    function Output(op: Op): Answer
      requires Legal(op)
    {
      match op
      case Go(_, _) => Sought(To(op) < |v|)
      case Get(n) => Answer.Got(v[pos..pos + Got(n)])
      case Store(_) => Stored
    }

    function Step(op: Op): Flat
      requires Legal(op)
    {
      match op
      case Go(_, _) => Flat(v, To(op))
      case Get(n) => Flat(v, pos + Got(n))
      case Store(s) => Flat(Overwrite(v, pos, s), pos + |s|)
    }
  }

  /** Every operation of a history is legal where it comes. */
  predicate AllLegal(f: Flat, ops: seq<Op>)
    decreases |ops|
  {
    ops == [] || (f.Legal(ops[0]) && AllLegal(f.Step(ops[0]), ops[1..]))
  }

  function Steps(f: Flat, ops: seq<Op>): Flat
    requires AllLegal(f, ops)
    decreases |ops|
  {
    if ops == [] then f else Steps(f.Step(ops[0]), ops[1..])
  }

  function Outputs(f: Flat, ops: seq<Op>): seq<Answer>
    requires AllLegal(f, ops)
    decreases |ops|
  {
    if ops == [] then [] else [f.Output(ops[0])] + Outputs(f.Step(ops[0]), ops[1..])
  }

  /** The blocks that the writes of a history cannot leave virtual, over images that show u. */
  ghost function Wants(g: Geo, u: Disk, f: Flat, op: Op): set<nat> {
    if op.Store? then Needed(g, u, f.pos, op.s) else {}
  }

  ghost function AllWants(g: Geo, u: Disk, f: Flat, ops: seq<Op>): set<nat>
    requires AllLegal(f, ops)
    decreases |ops|
  {
    if ops == [] then {} else Wants(g, u, f, ops[0]) + AllWants(g, u, f.Step(ops[0]), ops[1..])
  }

  method Run(image: Image, op: Op, ghost f: Flat) returns (r: Answer)
    requires image.Valid() && f == Flat(image.Line().View(), image.pos) && f.Legal(op)
    modifies image.stream, image`pos, image`footer, image.bat`decoded, image.upImages`pos, image.upBats`decoded,
        image.upFiles`pos
    ensures image.Valid() && image.Under() == old(image.Under())
    ensures Flat(image.Line().View(), image.pos) == f.Step(op) && r == f.Output(op)
    ensures Grown(old(image.Top().Held()), old(image.footer), image.Top().Held(), image.footer,
        Wants(image.g, image.Under(), f, op))
  {
    hide Image.Valid, Image.Line, Image.Under, Image.Linked, Disk.View, Overwrite, Fetched, Wrote, Grown, Needed, Layer.Held;
    hide Packed;
    image.Parts();
    image.UpSets();
    Unchanged(image.stream.data, image.Top().Held(), image.footer, image.footerCopy);
    ghost var k, p := image.Line(), image.pos;
    match op
    case Go(offset, whence) =>
      var ok := image.Seek(offset, whence);
      r := Sought(ok);
    case Get(n) =>
      var s := image.Read(n);
      r := Answer.Got(s);
      FetchedSlice(k, p, s);
    case Store(s) =>
      image.WriteAny(s);
      r := Stored;
      WroteView(k, image.Line(), p, s);
  }

  lemma Unchanged(d: seq<Byte>, h: set<nat>, footer: seq<Byte>, copy: seq<Byte>)
    requires FooterIs(d, footer, copy)
    ensures Grown(h, footer, h, footer, {})
  {
  }

  /**
   * Through a dynamic image, or one laid over any line of parents: the same answers, the same disk and position left,
   * the parents untouched. Exactly the blocks wanted have been added, and unless they were all there the container
   * opens again if and only if its footer carried its checksum.
   */
  method Replay(image: Image, ops: seq<Op>) returns (out: seq<Answer>)
    requires image.Valid() && AllLegal(Flat(image.Line().View(), image.pos), ops)
    modifies image.stream, image`pos, image`footer, image.bat`decoded, image.upImages`pos, image.upBats`decoded,
        image.upFiles`pos
    ensures image.Valid() && image.Under() == old(image.Under())
    ensures var f := old(Flat(image.Line().View(), image.pos));
      Flat(image.Line().View(), image.pos) == Steps(f, ops) && out == Outputs(f, ops)
    ensures var more := AllWants(image.g, image.Under(), old(Flat(image.Line().View(), image.pos)), ops);
      && image.Top().Held() == old(image.Top().Held()) + more
      && (Twins(image.stream.data) <==> if more <= old(image.Top().Held()) then old(Twins(image.stream.data))
         else CarriesChecksum(image.footerCopy, CHECKSUM))
  {
    hide Image.Valid, Image.Line, Image.Under, Image.Linked, Disk.View, Flat.Step, Flat.Output, Flat.Legal, Wants;
    hide Layer.Held, Packed, Grown, CarriesChecksum, FooterIs, Kin, Twins;
    image.Parts();
    image.Footers();
    ghost var f, u, d := Flat(image.Line().View(), image.pos), image.Under(), image.stream.data;
    ghost var g, h, ft, more := f, image.Top().Held(), image.footer, {};
    Unchanged(d, h, ft, image.footerCopy);
    out := [];
    var i := 0;
    assert ops[0..] == ops;
    while i < |ops|
      invariant i <= |ops| && image.Linked() && image.Valid() && image.Under() == u
      invariant g == Flat(image.Line().View(), image.pos) && AllLegal(g, ops[i..])
      invariant Steps(f, ops) == Steps(g, ops[i..]) && Outputs(f, ops) == out + Outputs(g, ops[i..])
      invariant AllWants(image.g, u, f, ops) == more + AllWants(image.g, u, g, ops[i..])
      invariant Grown(h, ft, image.Top().Held(), image.footer, more)
    {
      assert ops[i..][1..] == ops[i + 1..];
      ghost var h1, ft1, w := image.Top().Held(), image.footer, Wants(image.g, u, g, ops[i]);
      var r := Run(image, ops[i], g);
      GrownMore(h, ft, h1, ft1, image.Top().Held(), image.footer, more, w);
      g, more := g.Step(ops[i]), more + w;
      out := out + [r];
      i := i + 1;
    }
    image.Footers();
    GrownOpens(d, image.stream.data, h, image.Top().Held(), more);
    HeldMore(h, ft, image.Top().Held(), image.footer, more);
  }

  lemma HeldMore(h: set<nat>, ft: seq<Byte>, h': set<nat>, ft': seq<Byte>, more: set<nat>)
    requires Grown(h, ft, h', ft', more)
    ensures h' == h + more
  {
  }

  /** Closing an image and opening it again shows the same disk, if the footer is still the same as its copy. */
  method Again(image: Image) returns (again: Image?)
    requires image.Valid()
    modifies image.stream`pos
    ensures again != null <==> Twins(image.stream.data)
    ensures again != null ==> again.Valid() && again.Line() == image.Line() && again.pos == 0
  {
    hide *;
    image.UpParts();
    image.FileSize();
    TwinsRead(image.stream.data);
    Openable(image);
    image.stream.Seek(|image.stream.data| - 512);
    var ft := image.stream.Read(512);
    image.stream.Seek(0);
    var copy := image.stream.Read(512);
    if ft != copy {
      return null;
    }
    again := new Image(image.stream, image.parent, image.start);
    again.UpParts();
    SameLine(image, again);
  }

  lemma Openable(image: Image)
    requires image.Valid()
    ensures image.parent != null ==>
      image.parent.Valid() && image.stream != image.parent.stream && image.stream !in image.parent.upFiles
    ensures Over(Layer(image.stream.data, GeoIn(image.stream.data), image.start), LineOf(image.parent)).Valid()
    ensures GeoIn(image.stream.data) == image.g
  {
    hide Layer.Framed, Layer.Placed, Layer.Disjoint, Layer.AllMarked, Layer.Padded, BE32, BE64, FooterIs;
    image.UpParts();
    image.LineIs();
    assert image.Top().Sealed();
  }

  lemma SameLine(a: Image, b: Image)
    requires a.Linked() && b.Linked() && b.stream == a.stream && b.parent == a.parent && b.g == a.g && b.start == a.start
    ensures b.Line() == a.Line()
  {
  }
}
