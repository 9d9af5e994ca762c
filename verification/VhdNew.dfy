/** The empty containers mk_dynamic and mk_diff write. */
module VhdNew {
  import opened Bytes
  import opened BlockBitmaps
  import opened VhdFooter
  import opened VhdLayers
  import opened VhdSteps
  import opened VhdExpand

  /** Footer, header, a table of unused entries, spare table sectors or parent locators, footer. */
  function Container(ft: seq<Byte>, h: seq<Byte>, table: nat, extra: seq<Byte>): seq<Byte> {
    ft + h + Fill(table, 0xFF) + extra + ft
  }

  /** Footer and header fields of an image of that geometry. */
  ghost predicate Describes(ft: seq<Byte>, h: seq<Byte>, g: Geo, kind: nat) {
    && |ft| == 512 && |h| == 1024 && g.table == 1536
    && g == Geo(BE64(ft, 0x30), BE32(h, 0x20), BE64(h, 0x10), BE32(h, 0x1C)) && BE32(ft, 0x3C) == kind
  }

  /** Every entry is unused. */
  lemma NewEntry(ft: seq<Byte>, h: seq<Byte>, g: Geo, extra: seq<Byte>, i: nat)
    requires |ft| == 512 && |h| == 1024 && g.table == 1536 && i < g.entries
    ensures Layer(Container(ft, h, g.TableSize(), extra), g, 0).Entry(i) == UNUSED
  {
    var d := Container(ft, h, g.TableSize(), extra);
    assert 1536 + 4 * i + 4 <= 1536 + g.TableSize();
    forall k | 1536 <= k < 1536 + g.TableSize() ensures At(d, k) == 0xFF {
    }
    hide Container, At, Geo.TableSize;
  }

  lemma {:induction false} NoneUsed(a: Layer, n: nat)
    requires forall i :: 0 <= i < n ==> !a.Has(i)
    ensures a.Used(n) == 0
  {
    if n > 0 {
      NoneUsed(a, n - 1);
    }
  }

  lemma NewTitles(ft: seq<Byte>, h: seq<Byte>, g: Geo, extra: seq<Byte>, kind: nat, a: Layer)
    requires Describes(ft, h, g, kind) && a == Layer(Container(ft, h, g.TableSize(), extra), g,
        1536 + g.TableSize() + |extra|)
    ensures GeoIn(a.d) == g && a.Sealed() && Lead(a.d) == Trail(a.d) == ft && a.Padded() && Kind(a.d) == kind
  {
    var d := a.d;
    forall k {:trigger At(d, k)} | 0 <= k < 512 ensures At(d, k) == ft[k] {
    }
    forall k {:trigger At(d, k)} | 512 <= k < 1536 ensures At(d, k) == h[k - 512] {
    }
    forall k {:trigger At(d, k)} | 1536 <= k < 1536 + g.TableSize() ensures At(d, k) == 0xFF {
    }
    forall k {:trigger Foot(d, k)} | 0 <= k < 512 ensures Foot(d, k) == ft[k] {
    }
    RetitledGeo(d, ft, h);
    hide Container, At, BE32, Packed;
    assert Lead(d) == ft == Trail(d);
  }

  /** A new container is laid out and shows what is underneath: zeros, or the parent. */
  lemma NewDisk(ft: seq<Byte>, h: seq<Byte>, g: Geo, extra: seq<Byte>, under: Disk) returns (a: Layer)
    requires Describes(ft, h, g, if under.Nothing? then 3 else 4) && g.Valid() && |extra| % 512 == 0
    requires 1536 + g.TableSize() + |extra| + g.entries * g.Raw() <= 512 * UNUSED
    requires under.Valid() && (under.Over? ==> SameShape(g, under.top.g))
    ensures a.d == Container(ft, h, g.TableSize(), extra) && a.g == g && GeoIn(a.d) == g && Over(a, under).Valid()
    ensures a.start == 1536 + g.TableSize() + |extra|
    ensures Lead(a.d) == Trail(a.d) == ft && (Over(a, under).Opens() <==> under.Opens())
    ensures forall p :: 0 <= p < g.size ==> Over(a, under).Shows(p) == under.Shows(p)
  {
    hide Container, Layer.Has, BE32, Describes, Geo.TableSize, Layer.Sealed, Layer.Padded, Layer.Framed;
    a := Layer(Container(ft, h, g.TableSize(), extra), g, 1536 + g.TableSize() + |extra|);
    DescribesLengths(ft, h, g, if under.Nothing? then 3 else 4);
    NewTitles(ft, h, g, extra, if under.Nothing? then 3 else 4, a);
    forall i | 0 <= i < g.entries ensures !a.Has(i) {
      NewUnused(ft, h, g, extra, a, i);
    }
    NoneUsed(a, g.entries);
    NewFrame(ft, h, g, extra, a);
    forall p | 0 <= p < g.size ensures Over(a, under).Shows(p) == under.Shows(p) {
      Positive(g);
      g.Inside(p) by { GeoSize(g); }
    }
  }

  lemma GeoSize(g: Geo)
    requires g.Valid()
    ensures g.size <= g.Pos(g.entries, 0)
  {
  }

  lemma DescribesLengths(ft: seq<Byte>, h: seq<Byte>, g: Geo, kind: nat)
    requires Describes(ft, h, g, kind)
    ensures |ft| == 512 && |h| == 1024 && g.table == 1536
  {
  }

  lemma NewUnused(ft: seq<Byte>, h: seq<Byte>, g: Geo, extra: seq<Byte>, a: Layer, i: nat)
    requires |ft| == 512 && |h| == 1024 && g.table == 1536 && i < g.entries
    requires a.d == Container(ft, h, g.TableSize(), extra) && a.g == g
    ensures !a.Has(i)
  {
    hide Container, BE32;
    NewEntry(ft, h, g, extra, i);
    assert a.Entry(i) == Layer(a.d, g, 0).Entry(i);
  }

  lemma NewFrame(ft: seq<Byte>, h: seq<Byte>, g: Geo, extra: seq<Byte>, a: Layer)
    requires |ft| == 512 && |h| == 1024 && g.table == 1536 && g.Valid() && |extra| % 512 == 0
    requires a == Layer(Container(ft, h, g.TableSize(), extra), g, 1536 + g.TableSize() + |extra|)
    requires 1536 + g.TableSize() + |extra| + g.entries * g.Raw() <= 512 * UNUSED && a.Used(g.entries) == 0
    ensures a.Framed()
  {
    hide Geo.Valid, Layer.Used;
    assert |a.d| == a.start + 512;
    hide Container;
    assert a.start % 512 == 0;
    assert 0 * g.Raw() == 0;
  }
}
