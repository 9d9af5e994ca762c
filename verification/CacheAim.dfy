/** Where a write to the cached disk puts its bytes, from the sector, offset and file position an earlier call left. */
module CacheAim {
  import opened Bytes

  /** Position, sector and offset, file position; reseek: the first slot the write needs is not cached and there is no
      room for it, so that making room seeks to the position; fill: the sector is not cached and the file stands
      elsewhere, so that its slot gets these bytes. */
  datatype Aim = Aim(pos: nat, si: nat, so: nat, at: nat, reseek: bool, fill: Option<seq<Byte>>) {
    /** Where bytes put into a slot go. */
    function Target(): nat { if reseek then pos else 512 * si + so }

    /** Whether n bytes fit the slot from there; else the code raises. */
    predicate SlotFits(n: nat) { (if reseek then pos % 512 else so) + n <= 512 }

    /** The file stands at a sector, and a slot is filled only where there is room. */
    predicate Proper() { so < 512 && at % 512 == 0 && (fill.Some? ==> |fill.value| == 512 && !reseek) }

    /** The disk as it reads with the slot filled. */
    function Filled(d: seq<Byte>): seq<Byte> { if fill.Some? then Overwrite(d, 512 * si, fill.value) else d }
  }

  /** A seek. */
  function Seeked(p: nat): Aim { Aim(p, p / 512, p % 512, 512 * (p / 512), false, None) }

  /** A write under way: the disk, the aim, the bytes left. */
  datatype Progress = Progress(d: seq<Byte>, a: Aim, rest: seq<Byte>) {
    /** Bytes that complete a sector. */
    function Part(): nat { Min(512 - Min(a.so, 512), |rest|) }

    /** Bytes of the whole sectors. */
    function Bulk(): nat { |rest| / 512 * 512 }

    function Head(): Progress {
      if a.so == 0 then this
      else Progress(Overwrite(a.Filled(d), a.Target(), rest[..Part()]), Seeked(a.pos + Part()), rest[Part()..])
    }

    function Body(): Progress {
      if |rest| <= 512 then this
      else Progress(Overwrite(d, a.at, rest[..Bulk()]), Seeked(a.pos + Bulk()), rest[Bulk()..])
    }

    function Tail(): Progress {
      if rest == [] then this else Progress(Overwrite(a.Filled(d), a.Target(), rest), Seeked(a.pos + |rest|), [])
    }

    predicate HeadFits() { a.so == 0 || a.SlotFits(Part()) }

    predicate TailFits() { rest == [] || a.SlotFits(|rest|) }
  }

  /** What a write of s makes of the disk. */
  function Written(d: seq<Byte>, a: Aim, s: seq<Byte>): seq<Byte> { Progress(d, a, s).Head().Body().Tail().d }

  /** The write does not raise. */
  predicate Fits(d: seq<Byte>, a: Aim, s: seq<Byte>) {
    Progress(d, a, s).HeadFits() && Progress(d, a, s).Head().Body().TailFits()
  }

  /** Past the cache, if there are more bytes than a sector's and they start one: there the file has to stand. Into a
      slot that has to be made room for: the bytes must end with the sector, unless the old offset was right. Else
      sector and offset have to be the position's, and the slot filled from its sector, unless all of it is written. */
  predicate Hits(a: Aim, n: nat) {
    if a.so == 0 && n > 512 then a.at == a.pos
    else if a.reseek then a.pos % 512 == a.so || a.pos % 512 + n <= 512
    else 512 * a.si + a.so == a.pos && (a.fill.None? || (a.so == 0 && n == 512))
  }

  /** A write straight after a seek. */
  lemma SeekedHits(p: nat, n: nat)
    ensures Hits(Seeked(p), n) && Seeked(p).Target() == p
  {
  }

  lemma Same(x: seq<Byte>, y: seq<Byte>)
    requires |x| == |y| && forall k {:trigger At(x, k)} :: 0 <= k < |x| ==> At(x, k) == At(y, k)
    ensures x == y
  {
    forall k | 0 <= k < |x| ensures x[k] == y[k] {
      assert At(x, k) == At(y, k);
    }
  }

  /** Writing one piece after another is writing them together. */
  lemma Join(d: seq<Byte>, p: nat, a: seq<Byte>, b: seq<Byte>)
    ensures Overwrite(Overwrite(d, p, a), p + |a|, b) == Overwrite(d, p, a + b)
  {
    hide Overwrite;
    var x, y := Overwrite(Overwrite(d, p, a), p + |a|, b), Overwrite(d, p, a + b);
    AtOverwrite(d, p, a, 0);
    AtOverwrite(Overwrite(d, p, a), p + |a|, b, 0);
    AtOverwrite(d, p, a + b, 0);
    forall k {:trigger At(x, k)} | 0 <= k < |x| ensures At(x, k) == At(y, k) {
      AtOverwrite(d, p, a, k);
      AtOverwrite(Overwrite(d, p, a), p + |a|, b, k);
      AtOverwrite(d, p, a + b, k);
    }
    Same(x, y);
  }

  /** From a sector boundary on, after a seek there, everything lands. */
  lemma AlignedLands(d: seq<Byte>, q: nat, s: seq<Byte>)
    requires q % 512 == 0
    ensures var p := Progress(d, Seeked(q), s); p.Body().TailFits() && p.Body().Tail().d == Overwrite(d, q, s)
  {
    hide Overwrite;
    NothingWritten(d, q);
    if |s| > 512 {
      var n := |s| / 512 * 512;
      assert s == s[..n] + s[n..];
      Join(d, q, s[..n], s[n..]);
      assert (q + n) % 512 == 0 && 512 * ((q + n) / 512) == q + n;
      NothingWritten(Overwrite(d, q, s[..n]), q + n);
    }
  }

  lemma NothingWritten(d: seq<Byte>, p: nat)
    ensures Overwrite(d, p, []) == d
  {
  }

  /** Within one sector, after a seek. */
  lemma WithinLands(d: seq<Byte>, q: nat, s: seq<Byte>)
    requires q % 512 + |s| <= 512
    ensures var p := Progress(d, Seeked(q), s); p.Body().TailFits() && p.Body().Tail().d == Overwrite(d, q, s)
  {
    hide Overwrite;
    NothingWritten(d, q);
    SeekedHits(q, |s|);
  }

  /** The sector completed at the position, and the rest. */
  lemma HeadLands(d: seq<Byte>, a: Aim, s: seq<Byte>)
    requires 0 < a.so < 512 && s != [] && a.Target() == a.pos
    requires a.pos % 512 == a.so || a.pos % 512 + |s| <= 512
    ensures Fits(d, a, s) && Written(d, a, s) == Overwrite(a.Filled(d), a.pos, s)
  {
    hide Overwrite, Aim.Filled, Progress.Body, Progress.Tail, Progress.TailFits;
    var n, e := Min(512 - a.so, |s|), a.Filled(d);
    var q, rest := a.pos + n, s[n..];
    assert s == s[..n] + rest;
    Join(e, a.pos, s[..n], rest);
    assert Progress(d, a, s).Head() == Progress(Overwrite(e, a.pos, s[..n]), Seeked(q), rest);
    if a.pos % 512 == a.so && n < |s| {
      assert q % 512 == 0;
      AlignedLands(Overwrite(e, a.pos, s[..n]), q, rest);
    } else if n == |s| {
      NothingLeft(Overwrite(e, a.pos, s[..n]), Seeked(q));
      assert s[..n] == s;
    } else {
      WithinLands(Overwrite(e, a.pos, s[..n]), q, rest);
    }
  }

  lemma NothingLeft(d: seq<Byte>, a: Aim)
    ensures var p := Progress(d, a, []); p.Body().TailFits() && p.Body().Tail().d == d
  {
  }

  /** Whole sectors past the cache at the position, and the rest. */
  lemma BodyLands(d: seq<Byte>, a: Aim, s: seq<Byte>)
    requires a.so == 0 && |s| > 512 && a.at == a.pos && a.at % 512 == 0
    ensures Fits(d, a, s) && Written(d, a, s) == Overwrite(d, a.pos, s)
  {
    hide Overwrite;
    var n := |s| / 512 * 512;
    assert s == s[..n] + s[n..];
    Join(d, a.pos, s[..n], s[n..]);
    SeekedHits(a.pos + n, |s| - n);
    NothingWritten(Overwrite(d, a.pos, s[..n]), a.pos + n);
  }

  /** Within the sector the file would have to stand at. */
  lemma SlotLands(d: seq<Byte>, a: Aim, s: seq<Byte>)
    requires a.so == 0 && 0 < |s| <= 512 && a.Target() == a.pos && (a.reseek ==> a.SlotFits(|s|))
    ensures Fits(d, a, s) && Written(d, a, s) == Overwrite(a.Filled(d), a.pos, s)
  {
    hide Overwrite, Aim.Filled;
  }

  /** A write that hits is an overwrite at the position. */
  lemma HitsLands(d: seq<Byte>, a: Aim, s: seq<Byte>)
    requires a.Proper() && s != [] && Hits(a, |s|)
    ensures Fits(d, a, s) && Written(d, a, s) == Overwrite(d, a.pos, s)
  {
    hide Overwrite, Written, Fits;
    if a.so != 0 {
      HeadLands(d, a, s);
    } else if |s| > 512 {
      BodyLands(d, a, s);
    } else {
      SlotLands(d, a, s);
      if a.fill.Some? {
        Covered(d, a.pos, a.fill.value, s);
      }
    }
  }
}
