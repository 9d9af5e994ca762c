/** Inserting bytes into the middle of a file by moving its tail, back to front, in chunks. */
module FileMove {
  import opened Bytes

  /** x is d with a gap of delta bytes at offset; the gap holds the fill byte, or what d had there. */
  ghost predicate Inserted(d: seq<Byte>, x: seq<Byte>, offset: nat, delta: nat, fill: Option<Byte>) {
    && |x| == |d| + delta
    && forall k {:trigger At(x, k)} :: At(x, k) ==
         if k >= offset + delta then At(d, k - delta)
         else if k >= offset && fill.Some? then fill.value
         else At(d, k)
  }

  /** The tail from end on has moved; everything before it is as it was. */
  ghost predicate Shifted(d: seq<Byte>, x: seq<Byte>, end: nat, delta: nat) {
    && |x| == |d| + delta
    && forall k {:trigger At(x, k)} :: At(x, k) == if k >= end + delta then At(d, k - delta) else At(d, k)
  }

  /** Growing the file moves nothing yet. */
  lemma ShiftStart(d: seq<Byte>, delta: nat)
    requires delta > 0
    ensures Shifted(d, Overwrite(d, |d| + delta - 1, [0]), |d|, delta)
  {
    var x := Overwrite(d, |d| + delta - 1, [0]);
    AtOverwrite(d, |d| + delta - 1, [0], 0);
    forall k ensures At(x, k) == if k >= |d| + delta then At(d, k - delta) else At(d, k) {
      AtOverwrite(d, |d| + delta - 1, [0], k);
    }
  }

  lemma ChunkRead(x: seq<Byte>, pos: nat, cb: nat)
    requires pos + cb <= |x|
    ensures |ReadAt(x, pos, cb)| == cb
    ensures forall k {:trigger ReadAt(x, pos, cb)[k]} :: 0 <= k < cb ==> ReadAt(x, pos, cb)[k] == At(x, pos + k)
  {
  }

  /** One chunk, ending where the moved tail begins. */
  lemma ShiftChunk(d: seq<Byte>, x: seq<Byte>, end: nat, delta: nat, cb: nat)
    requires Shifted(d, x, end, delta) && cb <= end <= |d|
    ensures |ReadAt(x, end - cb, cb)| == cb
    ensures Shifted(d, Overwrite(x, end - cb + delta, ReadAt(x, end - cb, cb)), end - cb, delta)
  {
    hide At, Overwrite, ReadAt;
    var pos, buf := end - cb, ReadAt(x, end - cb, cb);
    ChunkRead(x, pos, cb);
    var y := Overwrite(x, pos + delta, buf);
    AtOverwrite(x, pos + delta, buf, 0);
    forall k: int {:trigger At(y, k)} ensures At(y, k) == if k >= pos + delta then At(d, k - delta) else At(d, k) {
      AtOverwrite(x, pos + delta, buf, k);
      if pos + delta <= k < end + delta {
        assert buf[k - pos - delta] == At(x, pos + (k - pos - delta));
        assert At(x, k - delta) == At(d, k - delta);
      } else {
        assert At(x, k) == if k >= end + delta then At(d, k - delta) else At(d, k);
      }
    }
  }

  lemma ShiftEnd(d: seq<Byte>, x: seq<Byte>, offset: nat, delta: nat)
    requires Shifted(d, x, offset, delta) && offset <= |d|
    ensures Inserted(d, x, offset, delta, None)
    ensures forall b: Byte :: Inserted(d, Overwrite(x, offset, Fill(delta, b)), offset, delta, Some(b))
  {
    hide At, Overwrite, Fill;
    forall b: Byte ensures Inserted(d, Overwrite(x, offset, Fill(delta, b)), offset, delta, Some(b)) {
      ShiftEndFilled(d, x, offset, delta, b);
    }
    assert |x| == |d| + delta;
    forall k: int {:trigger At(x, k)} ensures At(x, k) == if k >= offset + delta then At(d, k - delta) else At(d, k) {
    }
  }

  lemma ShiftEndFilled(d: seq<Byte>, x: seq<Byte>, offset: nat, delta: nat, b: Byte)
    requires Shifted(d, x, offset, delta) && offset <= |d|
    ensures Inserted(d, Overwrite(x, offset, Fill(delta, b)), offset, delta, Some(b))
  {
    hide At, Overwrite;
    var s := Fill(delta, b);
    assert |s| == delta && forall k :: 0 <= k < delta ==> s[k] == b;
    hide Fill;
    var y := Overwrite(x, offset, s);
    AtOverwrite(x, offset, s, 0);
    assert |y| == |x|;
    forall k: int {:trigger At(y, k)}
      ensures At(y, k) == if k >= offset + delta then At(d, k - delta) else if k >= offset then b else At(d, k)
    {
      AtOverwrite(x, offset, s, k);
      assert At(x, k) == if k >= offset + delta then At(d, k - delta) else At(d, k);
    }
  }

  /** filemove: inserts delta bytes at offset; past the end of the file it only extends, with zeros. */
  method Move(fp: File, offset: nat, delta: int, chunk: nat, fill: Option<Byte>)
    requires chunk > 0
    modifies fp
    ensures delta <= 0 ==> fp.data == old(fp.data)
    ensures delta > 0 && offset < |old(fp.data)| ==> Inserted(old(fp.data), fp.data, offset, delta, fill)
    ensures delta > 0 && offset >= |old(fp.data)| ==> fp.data == Overwrite(old(fp.data), offset + delta - 1, [0])
  {
    if delta <= 0 {
      return;
    }
    var eof := |fp.data|;
    if offset >= eof {
      fp.Seek(offset + delta - 1);
      fp.Write([0]);
      return;
    }
    hide Overwrite, Inserted;
    MoveTail(fp, offset, delta, chunk, eof);
    if fill.Some? {
      fp.Seek(offset);
      fp.Write(Fill(delta, fill.value));
    }
  }

  /** Grows the file and moves the tail, the last chunk first. */
  method MoveTail(fp: File, offset: nat, delta: nat, chunk: nat, eof: nat)
    requires chunk > 0 && delta > 0 && offset < eof == |fp.data|
    modifies fp
    ensures Inserted(old(fp.data), fp.data, offset, delta, None)
    ensures forall b: Byte :: Inserted(old(fp.data), Overwrite(fp.data, offset, Fill(delta, b)), offset, delta, Some(b))
  {
    ghost var d := fp.data;
    hide Overwrite, ReadAt, Shifted, Inserted, Fill;
    fp.Seek(eof + delta - 1);
    fp.Write([0]);
    ShiftStart(d, delta);
    var end := eof;
    while end > offset
      invariant offset <= end <= |d| && Shifted(d, fp.data, end, delta)
    {
      var cb := Min(chunk, end - offset);
      var pos := end - cb;
      ShiftChunk(d, fp.data, end, delta, cb);
      fp.Seek(pos);
      var buf := fp.Read(cb);
      fp.Seek(pos + delta);
      fp.Write(buf);
      end := pos;
    }
    ShiftEnd(d, fp.data, offset, delta);
  }

  /** Old head, fill, old tail: as byte strings. */
  lemma InsertedIs(d: seq<Byte>, x: seq<Byte>, offset: nat, delta: nat, b: Byte)
    requires offset <= |d|
    ensures Inserted(d, x, offset, delta, Some(b)) <==> x == d[..offset] + Fill(delta, b) + d[offset..]
  {
    var y := d[..offset] + Fill(delta, b) + d[offset..];
    forall k ensures At(y, k) == if k >= offset + delta then At(d, k - delta) else if k >= offset then b else At(d, k) {
    }
    if Inserted(d, x, offset, delta, Some(b)) {
      assert |x| == |y|;
      forall k | 0 <= k < |x| ensures x[k] == y[k] {
        assert At(x, k) == At(y, k);
      }
    }
  }

  /** At the very end of the file the fill byte is not honoured: the new bytes are zeros, so only a zero fill is met. */
  lemma FillAtEnd(d: seq<Byte>, delta: nat, b: Byte)
    requires delta > 0
    ensures Inserted(d, Overwrite(d, |d| + delta - 1, [0]), |d|, delta, Some(b)) <==> b == 0
  {
    var x := Overwrite(d, |d| + delta - 1, [0]);
    AtOverwrite(d, |d| + delta - 1, [0], 0);
    forall k ensures At(x, k) == At(d, k) {
      AtOverwrite(d, |d| + delta - 1, [0], k);
    }
    assert At(x, |d|) == 0;
  }
}
