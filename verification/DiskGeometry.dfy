/** Cylinders, heads and sectors: choosing a geometry, converting addresses, placing the partition. */
module DiskGeometry {
  import opened Bytes
  import opened Bits

  // ---- addresses ----

  datatype Chs = Chs(c: nat, h: nat, s: nat)

  predicate Usable(hpc: nat, spc: nat) { 0 < hpc <= 255 && 0 < spc <= 63 }

  /** chs2lba */
  function ToLba(a: Chs, hpc: nat, spc: nat): Option<int> {
    if Usable(hpc, spc) then Some((a.c * hpc + a.h) * spc + (a.s - 1)) else None
  }

  /** lba2chs */
  function ToChs(lba: nat, hpc: nat, spc: nat): Option<Chs> {
    if Usable(hpc, spc) then Some(Chs(lba / (hpc * spc), lba / spc % hpc, lba % spc + 1)) else None
  }

  lemma DivUnique(b: nat, q: nat, r: nat)
    requires r < b
    ensures (q * b + r) / b == q && (q * b + r) % b == r
  {
    var x, y := (q * b + r) / b, (q * b + r) % b;
    if x < q {
      Mono(x + 1, q, b);
    } else if x > q {
      Mono(q + 1, x, b);
    }
  }

  lemma DivDiv(n: nat, a: nat, b: nat)
    requires a > 0 && b > 0
    ensures n / (b * a) == n / a / b
  {
    var q := n / a;
    var x, y, r := q / b, q % b, n % a;
    Parts(n, a);
    Parts(q, b);
    Spread(x, b, y, a);
    Mono(y + 1, b, a);
    Successor(y, a);
    DivUnique(b * a, x, y * a + r);
  }

  lemma Parts(n: nat, a: nat)
    requires a > 0
    ensures n == n / a * a + n % a && n % a < a
  {
  }

  lemma Successor(y: nat, a: nat)
    ensures (y + 1) * a == y * a + a
  {
  }

  lemma Spread(x: nat, b: nat, y: nat, a: nat)
    ensures (x * b + y) * a == x * (b * a) + y * a
  {
  }

  /** An address in range survives the way to a sector number and back. */
  lemma LbaRoundTrip(a: Chs, hpc: nat, spc: nat)
    requires Usable(hpc, spc) && a.h < hpc && 1 <= a.s <= spc
    ensures ToLba(a, hpc, spc).value >= 0 && ToChs(ToLba(a, hpc, spc).value, hpc, spc) == Some(a)
  {
    var t := a.c * hpc + a.h;
    var q := t * spc + (a.s - 1);
    Product(t, spc);
    assert ToLba(a, hpc, spc) == Some(q);
    DivUnique(spc, t, a.s - 1);
    DivUnique(hpc, a.c, a.h);
    DivDiv(q, spc, hpc);
    hide ToLba;
  }

  /** Every sector number survives the way to an address and back, and the address is in range. */
  lemma ChsRoundTrip(lba: nat, hpc: nat, spc: nat)
    requires Usable(hpc, spc)
    ensures var a := ToChs(lba, hpc, spc).value; a.h < hpc && 1 <= a.s <= spc && ToLba(a, hpc, spc) == Some(lba)
  {
    DivDiv(lba, spc, hpc);
    Parts(lba, spc);
    Parts(lba / spc, hpc);
    Assembled(lba, lba / spc, lba / spc / hpc, lba / spc % hpc, lba % spc, hpc, spc);
  }

  lemma Assembled(lba: nat, t: nat, c: nat, h: nat, s: nat, hpc: nat, spc: nat)
    requires lba == t * spc + s && t == c * hpc + h
    ensures (c * hpc + h) * spc + s == lba
  {
  }

  /** The sector after one: on the track, else the first of the next head, else that of the next cylinder. */
  function NextSector(a: Chs, hpc: nat, spc: nat): Chs {
    if a.s < spc then Chs(a.c, a.h, a.s + 1)
    else if a.h + 1 < hpc then Chs(a.c, a.h + 1, 1)
    else Chs(a.c + 1, 0, 1)
  }

  /** Addresses count sectors in disk order, from cylinder 0, head 0, sector 1. */
  lemma AddressNext(lba: nat, hpc: nat, spc: nat)
    requires Usable(hpc, spc)
    ensures ToChs(0, hpc, spc) == Some(Chs(0, 0, 1))
    ensures ToChs(lba + 1, hpc, spc) == Some(NextSector(ToChs(lba, hpc, spc).value, hpc, spc))
  {
    LbaRoundTrip(Chs(0, 0, 1), hpc, spc);
    ChsRoundTrip(lba, hpc, spc);
    var a := ToChs(lba, hpc, spc).value;
    var b := NextSector(a, hpc, spc);
    NextLba(a, hpc, spc);
    hide ToLba, ToChs;
    LbaRoundTrip(b, hpc, spc);
  }

  lemma NextLba(a: Chs, hpc: nat, spc: nat)
    requires Usable(hpc, spc) && a.h < hpc && 1 <= a.s <= spc
    ensures ToLba(NextSector(a, hpc, spc), hpc, spc) == Some(ToLba(a, hpc, spc).value + 1)
  {
    var t := a.c * hpc + a.h;
    Successor(t, spc);
    Successor(a.c, hpc);
  }

  /** chs2raw and raw2chs: the three bytes of a partition entry. */
  function ToRaw(a: Chs): (nat, nat, nat) {
    if a.c > 1023 then (254, 255, 255) else (a.h, Or(Shr(And(a.c, 768), 2), a.s), And(a.c, 255))
  }

  function FromRaw(r: (nat, nat, nat)): Chs {
    Chs(Or(Shl(And(r.1, 192), 2), r.2), r.0, And(r.1, 63))
  }

  lemma {:induction false} SameBits(x: nat, y: nat)
    requires forall k: nat :: Bit(x, k) == Bit(y, k)
    ensures x == y
  {
    if x == 0 {
      if y > 0 {
        var k := HighBit(y);
        ZeroBit(k);
      }
    } else if y == 0 {
      var k := HighBit(x);
      ZeroBit(k);
    } else {
      assert Bit(x, 0) == Bit(y, 0);
      forall k: nat ensures Bit(x / 2, k) == Bit(y / 2, k) {
        assert Bit(x, k + 1) == Bit(y, k + 1);
      }
      SameBits(x / 2, y / 2);
    }
  }

  /** The masks of the conversion: the two top cylinder bits, and where the packed byte keeps them. */
  lemma MaskBits(k: nat)
    ensures (Bit(768, k) <==> k == 8 || k == 9) && (Bit(192, k) <==> k == 6 || k == 7) && (Bit(63, k) <==> k < 6)
  {
    OnesBit(2, k);
    OnesBit(6, k);
    assert Shl(1, 2) == 4;
    assert Shl(1, 6) == 64;
    ShlBit(3, 6, k);
    ShlBit(3, 8, k);
    if k >= 6 {
      OnesBit(2, k - 6);
    }
    if k >= 8 {
      OnesBit(2, k - 8);
    }
    assert Shl(3, 6) == 192;
    assert Shl(3, 8) == 768;
  }

  lemma PackedBit(c: nat, s: nat, k: nat)
    requires c <= 1023 && s < 64
    ensures Bit(Or(Shr(And(c, 768), 2), s), k) <==> if k < 6 then Bit(s, k) else k < 8 && Bit(c, k + 2)
  {
    OrBit(Shr(And(c, 768), 2), s, k);
    ShrBit(And(c, 768), 2, k);
    AndBit(c, 768, 2 + k);
    MaskBits(k + 2);
    assert Shl(1, 6) == 64;
    if k >= 6 {
      NoHigh(s, 6, k);
    }
  }

  /** Addresses that fit the entry survive packing: 10 bits of cylinder, a byte of head, 6 bits of sector. */
  lemma RawRoundTrip(a: Chs)
    requires a.c <= 1023 && a.s < 64
    ensures FromRaw(ToRaw(a)) == a && ToRaw(a).1 < 256 && ToRaw(a).2 < 256
  {
    var b2, b3 := ToRaw(a).1, ToRaw(a).2;
    Eight();
    forall k: nat ensures k >= 8 ==> !Bit(b2, k) && !Bit(b3, k) {
      PackedBit(a.c, a.s, k);
      AndBit(a.c, 255, k);
      Ones(k);
    }
    Narrow(b2, 8);
    Narrow(b3, 8);
    forall k: nat ensures Bit(And(b2, 63), k) == Bit(a.s, k) {
      SectorBit(a, k);
    }
    SameBits(And(b2, 63), a.s);
    forall k: nat ensures Bit(Or(Shl(And(b2, 192), 2), b3), k) == Bit(a.c, k) {
      CylinderBit(a, k);
    }
    SameBits(Or(Shl(And(b2, 192), 2), b3), a.c);
  }

  lemma SectorBit(a: Chs, k: nat)
    requires a.c <= 1023 && a.s < 64
    ensures Bit(And(ToRaw(a).1, 63), k) == Bit(a.s, k)
  {
    AndBit(ToRaw(a).1, 63, k);
    PackedBit(a.c, a.s, k);
    MaskBits(k);
    assert Shl(1, 6) == 64;
    if k >= 6 {
      NoHigh(a.s, 6, k);
    }
  }

  lemma CylinderBit(a: Chs, k: nat)
    requires a.c <= 1023 && a.s < 64
    ensures Bit(Or(Shl(And(ToRaw(a).1, 192), 2), ToRaw(a).2), k) == Bit(a.c, k)
  {
    var b2, b3 := ToRaw(a).1, ToRaw(a).2;
    OrBit(Shl(And(b2, 192), 2), b3, k);
    ShlBit(And(b2, 192), 2, k);
    AndBit(a.c, 255, k);
    Ones(k);
    if k >= 2 {
      AndBit(b2, 192, k - 2);
      MaskBits(k - 2);
      PackedBit(a.c, a.s, k - 2);
    }
    Eight();
    assert Shl(1, 10) == 4 * Shl(1, 8);
    if k >= 10 {
      NoHigh(a.c, 10, k);
    }
  }

  /** The low n bits are the remainder by 2**n. */
  lemma {:induction false} LowBits(x: nat, n: nat)
    ensures Shl(1, n) > 0 && And(x, Shl(1, n) - 1) == x % Shl(1, n)
    decreases n
  {
    if n == 0 {
      AndNone(x);
    } else {
      LowBits(x / 2, n - 1);
      var m := Shl(1, n - 1);
      AndOdd(x, m);
      TwoMod(x, m);
    }
  }

  lemma AndOdd(x: nat, m: nat)
    requires m > 0
    ensures And(x, 2 * m - 1) == 2 * And(x / 2, m - 1) + x % 2
  {
    assert (2 * m - 1) / 2 == m - 1 && (2 * m - 1) % 2 == 1;
  }

  lemma TwoMod(x: nat, m: nat)
    requires m > 0
    ensures x % (2 * m) == 2 * (x / 2 % m) + x % 2
  {
    var q, r := x / 2 / m, x / 2 % m;
    Parts(x / 2, m);
    Doubled(q, m);
    DivUnique(2 * m, q, 2 * r + x % 2);
  }

  lemma Doubled(q: nat, m: nat)
    ensures q * (2 * m) == 2 * (q * m)
  {
  }

  /** Numbers without a common bit add up. */
  lemma {:induction false} OrAdds(x: nat, n: nat, s: nat)
    requires s < Shl(1, n)
    ensures Or(Shl(x, n), s) == Shl(x, n) + s
    decreases n
  {
    if n == 0 {
      OrNone(x);
    } else {
      OrAdds(x, n - 1, s / 2);
      assert Shl(x, n) == 2 * Shl(x, n - 1);
    }
  }

  /** The bytes of a partition entry, as numbers: head, cylinder by 256 times 64 and the sector, the rest of the
      cylinder. */
  lemma RawBytes(a: Chs)
    requires a.s < 64
    ensures ToRaw(a) == if a.c > 1023 then (254, 255, 255) else (a.h, 64 * (a.c / 256) + a.s, a.c % 256)
  {
    if a.c <= 1023 {
      LowBits(a.c, 8);
      Eight();
      TopBits(a.c);
      OrAdds(a.c / 256, 6, a.s);
      Times64(a.c / 256);
      Times64(1);
    }
  }

  lemma Times64(x: nat)
    ensures Shl(x, 6) == 64 * x
  {
    assert Shl(x, 1) == 2 * x && Shl(x, 2) == 4 * x;
    assert Shl(x, 3) == 8 * x && Shl(x, 4) == 16 * x;
    assert Shl(x, 5) == 32 * x;
  }

  /** The two bits above the low byte, moved down by two. */
  lemma TopBits(c: nat)
    requires c <= 1023
    ensures Shr(And(c, 768), 2) == Shl(c / 256, 6)
  {
    forall k: nat ensures Bit(Shr(And(c, 768), 2), k) == Bit(Shl(c / 256, 6), k) {
      ShrBit(And(c, 768), 2, k);
      AndBit(c, 768, k + 2);
      MaskBits(k + 2);
      ShlBit(c / 256, 6, k);
      if k >= 6 {
        ShrBit(c, 8, k - 6);
        Over256(c);
        Eight();
        assert Shl(1, 10) == 4 * Shl(1, 8);
        if k >= 8 {
          NoHigh(c, 10, k + 2);
        }
      }
    }
    SameBits(Shr(And(c, 768), 2), Shl(c / 256, 6));
  }

  lemma Over256(c: nat)
    ensures Shr(c, 8) == c / 256
  {
    assert Shr(c, 8) == Shr(c / 4, 6);
    assert Shr(c / 4, 6) == Shr(c / 16, 4);
    assert Shr(c / 16, 4) == Shr(c / 64, 2);
    assert Shr(c / 64, 2) == Shr(c / 128, 1) == c / 256;
  }

  // ---- choosing a geometry ----

  /** Floppies and early hard disks with a geometry of their own. */
  const KNOWN: map<nat, Chs> := map[
    320 := Chs(40, 1, 8), 360 := Chs(40, 1, 9), 640 := Chs(80, 1, 8), 720 := Chs(80, 1, 9), 1280 := Chs(80, 2, 8),
    1440 := Chs(80, 2, 9), 2400 := Chs(80, 2, 15), 2880 := Chs(80, 2, 18), 3360 := Chs(80, 2, 21), 3444 := Chs(82,
        2, 21),
    3680 := Chs(80, 2, 23), 5760 := Chs(80, 2, 36), 10404 := Chs(306, 2, 17), 41820 := Chs(615, 4, 17),
        83640 := Chs(820, 6, 17)]

  const TRACKS: seq<nat> := [17, 36, 48, 52, 63]
  const HEADS: seq<nat> := [2, 4, 6, 8, 9, 10, 16, 32, 64, 128, 240, 255]

  /** As many whole cylinders as the sectors allow. */
  ghost predicate Spans(g: Chs, sectors: nat) {
    Usable(g.h, g.s) && g.c * (g.h * g.s) <= sectors < (g.c + 1) * (g.h * g.s)
  }

  /** Each of them has exactly its sectors; one head up to 720 of them, two on the other floppies. */
  lemma KnownIs(n: nat)
    requires n in KNOWN
    ensures n in {320, 360, 640, 720, 1280, 1440, 2400, 2880, 3360, 3444, 3680, 5760, 10404, 41820, 83640}
    ensures KNOWN[n].c * (KNOWN[n].h * KNOWN[n].s) == n
    ensures KNOWN[n].h == if n <= 720 then 1 else if n <= 10404 then 2 else if n == 41820 then 4 else 6
    ensures KNOWN[n].c == if n <= 360 then 40 else if n == 3444 then 82 else if n <= 5760 then 80 else
        if n == 10404 then 306 else if n == 41820 then 615 else 820
  {
  }

  lemma KnownSpans(sectors: nat)
    requires sectors in KNOWN
    ensures Spans(KNOWN[sectors], sectors)
  {
  }

  const CYLINDERS: nat := 1024 * 255

  function Quot(a: nat, b: nat): nat { if b == 0 then 0 else a / b }

  lemma QuotMono(n: nat, a: nat, b: nat)
    requires 0 < a <= b
    ensures Quot(n, b) <= Quot(n, a)
  {
    var x, y := n / b, n / a;
    assert x * b <= n && n < (y + 1) * a;
    Mono(a, b, x);
    if x > y {
      Mono(y + 1, x, a);
    }
  }

  /** h is the first number of heads that keeps the cylinders within 1024. */
  ghost predicate Picked(c: nat, h: nat, ch: nat, i: nat) {
    && i < |HEADS| && h == HEADS[i] && c == Quot(ch, h) <= 1024
    && forall j {:trigger HEADS[j]} :: 0 <= j < i ==> Quot(ch, HEADS[j]) > 1024
  }

  /** Fewest of the numbers of heads that are tried. */
  ghost predicate Fewest(h: nat, ch: nat) {
    && h in {2, 4, 6, 8, 9, 10, 16, 32, 64, 128, 240, 255} && Quot(ch, h) <= 1024
    && forall x: nat :: x in {2, 4, 6, 8, 9, 10, 16, 32, 64, 128, 240, 255} && x < h ==> Quot(ch, x) > 1024
  }

  lemma PickedFewest(c: nat, h: nat, ch: nat, i: nat)
    requires Picked(c, h, ch, i)
    ensures Fewest(h, ch) && c == Quot(ch, h)
  {
    hide Quot;
    assert |HEADS| == 12 && HEADS[0] == 2 && HEADS[1] == 4 && HEADS[2] == 6 && HEADS[3] == 8 && HEADS[4] == 9;
    assert HEADS[5] == 10 && HEADS[6] == 16 && HEADS[7] == 32 && HEADS[8] == 64 && HEADS[9] == 128;
    assert HEADS[10] == 240 && HEADS[11] == 255;
  }

  lemma HeadRange(i: nat)
    requires i < |HEADS|
    ensures 2 <= HEADS[i] <= 255
  {
  }

  /** With 255 heads it always fits. */
  lemma LastHead(ch: nat)
    requires ch <= CYLINDERS
    ensures Quot(ch, HEADS[11]) <= 1024 && |HEADS| == 12
  {
  }

  method PickHeads(ch: nat) returns (c: nat, h: nat, ghost i: nat)
    requires ch <= CYLINDERS
    ensures Picked(c, h, ch, i) && 2 <= h <= 255
  {
    LastHead(ch);
    hide Quot;
    var k := 0;
    h := HEADS[0];
    c := Quot(ch, h);
    while c > 1024
      invariant k < |HEADS| && h == HEADS[k] && c == Quot(ch, h)
      invariant forall j {:trigger HEADS[j]} :: 0 <= j < k ==> Quot(ch, HEADS[j]) > 1024
      decreases |HEADS| - k
    {
      assert k != 11;
      k := k + 1;
      h := HEADS[k];
      c := Quot(ch, h);
    }
    HeadRange(k);
    i := k;
  }

  /** What the loops leave after track size s. */
  ghost predicate Chosen(sectors: nat, c: nat, h: nat, s: nat) {
    if h == 0 then Quot(sectors, s) > CYLINDERS
    else Quot(sectors, s) <= CYLINDERS && 2 <= h <= 255 && exists i :: Picked(c, h, Quot(sectors, s), i)
  }

  /** get_geometry: no loop stops at the first track size that fits, so 63 sectors it is, and the fewest heads. */
  method GetGeometry(sectors: nat) returns (g: Chs)
    ensures sectors in KNOWN ==> g == KNOWN[sectors]
    ensures sectors !in KNOWN ==> g.s == 63
    ensures sectors !in KNOWN ==>
      if Quot(sectors, 63) > CYLINDERS then g.h == 255 && g.c == Quot(sectors, 255 * 63) >= 1024 else
          exists i :: Picked(g.c, g.h, Quot(sectors, 63), i)
    ensures sectors !in KNOWN && sectors / 63 <= 261120 ==> Fewest(g.h, sectors / 63) && g.c == sectors / 63 / g.h
    ensures Spans(g, sectors)
  {
    hide Spans, Fewest;
    if sectors in KNOWN {
      KnownSpans(sectors);
      return KNOWN[sectors];
    }
    assert Quot(sectors, 63) == sectors / 63;
    hide Picked, Quot;
    var c, h, s := 0, 0, 0;
    var i := 0;
    while i < |TRACKS|
      invariant i <= |TRACKS| && (i == 0 ==> h == 0) && (i > 0 ==> s == TRACKS[i - 1] && Chosen(sectors, c, h, s))
    {
      if i > 0 {
        QuotMono(sectors, s, TRACKS[i]);
      }
      s := TRACKS[i];
      var ch := Quot(sectors, s);
      i := i + 1;
      if ch > CYLINDERS {
        continue;
      }
      ghost var k;
      c, h, k := PickHeads(ch);
    }
    if h == 0 {
      s := 63;
      h := 255;
      c := Quot(sectors, h * s);
      ManyCylinders(sectors);
    } else {
      ghost var k :| Picked(c, h, Quot(sectors, s), k);
      FewCylinders(sectors, c, h, k);
      PickedFewest(c, h, Quot(sectors, s), k);
      assert c == Quot(sectors / 63, h);
    }
    g := Chs(c, h, s);
  }

  lemma ManyCylinders(sectors: nat)
    requires Quot(sectors, 63) > CYLINDERS
    ensures Quot(sectors, 255 * 63) >= 1024 && Spans(Chs(Quot(sectors, 255 * 63), 255, 63), sectors)
  {
  }

  lemma FewCylinders(sectors: nat, c: nat, h: nat, i: nat)
    requires Picked(c, h, Quot(sectors, 63), i) && 2 <= h <= 255
    ensures Spans(Chs(c, h, 63), sectors)
  {
    var ch := sectors / 63;
    assert c == ch / h;
    DivDiv(sectors, 63, h);
    Bounds(sectors, h * 63);
  }

  lemma Bounds(n: nat, m: nat)
    requires m > 0
    ensures n / m * m <= n < (n / m + 1) * m
  {
  }

  // ---- placing the partition ----

  /** Rounding to cylinder ends: from the offset to the last cylinder boundary within the size. */
  function CylinderAligned(offset: nat, c: nat, cyl: nat): int
    requires cyl > 0
  {
    (offset + c * cyl) / cyl * cyl - offset
  }

  lemma AlignedIs(offset: nat, c: nat, cyl: nat)
    requires cyl > 0
    ensures CylinderAligned(offset, c, cyl) == c * cyl - offset % cyl
    ensures c > 0 ==> 0 < CylinderAligned(offset, c, cyl)
    ensures CylinderAligned(offset, c, cyl) <= c * cyl
  {
    var q, r := offset / cyl, offset % cyl;
    assert offset + c * cyl == (q + c) * cyl + r;
    DivUnique(cyl, q + c, r);
    assert (q + c) * cyl == q * cyl + c * cyl;
    if c > 0 {
      Mono(1, c, cyl);
    }
  }

  const CHS_LIMIT: nat := 1024 * 255 * 63 * 512
  const MIB: nat := 0x10_0000

  /** Bytes of the partition: whole cylinders, or whole MiB past what addresses can reach. */
  function PartSize(offset: nat, size: nat, c: nat, cyl: nat): int
    requires cyl > 0
  {
    var n := CylinderAligned(offset, c, cyl);
    if n > CHS_LIMIT then size / MIB * MIB else n
  }

  lemma PartFits(offset: nat, size: nat, c: nat, tracks: nat)
    requires c > 0 && tracks > 0 && c * tracks <= size / 512
    ensures 0 < PartSize(offset, size, c, tracks * 512) <= size
  {
    AlignedIs(offset, c, tracks * 512);
    assert c * (tracks * 512) == 512 * (c * tracks);
  }

  lemma PartSectors(offset: nat, size: nat, c: nat, tracks: nat)
    requires c > 0 && tracks > 0 && c * tracks <= size / 512 && offset % 512 == 0
    ensures PartSize(offset, size, c, tracks * 512) % 512 == 0
  {
    AlignedIs(offset, c, tracks * 512);
    var q := (offset + c * (tracks * 512)) / (tracks * 512);
    assert q * (tracks * 512) == 512 * (q * tracks);
    Whole512(q * tracks, offset);
    assert size / MIB * MIB % 512 == 0;
  }

  lemma Whole512(a: nat, b: nat)
    requires b % 512 == 0
    ensures (512 * a - b) % 512 == 0
  {
    assert 512 * a - b == 512 * (a - b / 512);
  }

  /** c cylinders of that many sectors fit, and no more. */
  ghost predicate Largest(c: nat, tracks: nat, sectors: nat) {
    c > 0 && c * tracks <= sectors < (c + 1) * tracks
  }

  /** A partition of n bytes ends with a cylinder, as near to the size as that allows; past 8422686720 bytes it has
      the whole MiB of the size. */
  ghost predicate EndsWell(offset: nat, size: nat, cyl: nat, n: int) {
    || (cyl > 0 && (offset + n) % cyl == 0 && n <= 8422686720 && 0 < n <= size < n + 2 * cyl + 512)
    || (size > 8422686720 && n == size / 1048576 * 1048576)
  }

  lemma PartEnds(offset: nat, size: nat, c: nat, tracks: nat)
    requires 0 < tracks && Largest(c, tracks, size / 512)
    ensures EndsWell(offset, size, 512 * tracks, PartSize(offset, size, c, tracks * 512))
  {
    AlignedIs(offset, c, tracks * 512);
    AlignedEnds(offset, c, tracks * 512);
    Bytes512(c, tracks);
    var n := CylinderAligned(offset, c, tracks * 512);
    hide CylinderAligned;
    assert n <= size < n + 2 * (512 * tracks) + 512;
  }

  lemma Bytes512(c: nat, tracks: nat)
    ensures c * (tracks * 512) == 512 * (c * tracks) && (c + 1) * tracks == c * tracks + tracks
  {
  }

  lemma AlignedEnds(offset: nat, c: nat, cyl: nat)
    requires cyl > 0
    ensures (offset + CylinderAligned(offset, c, cyl)) % cyl == 0
  {
    DivUnique(cyl, (offset + c * cyl) / cyl, 0);
  }

  /** At most two cylinders, or a MiB, of the size are left over. */
  lemma LittleLost(offset: nat, size: nat, c: nat, tracks: nat)
    requires 0 < tracks <= 255 * 63 && Largest(c, tracks, size / 512)
    ensures PartSize(offset, size, c, tracks * 512) > size - 2 * 255 * 63 * 512 - 512
  {
    AlignedIs(offset, c, tracks * 512);
    assert c * (tracks * 512) == 512 * (c * tracks);
    assert (c + 1) * tracks == c * tracks + tracks;
  }

  /** Entry of the partition table. */
  datatype Entry = Entry(first: nat, total: nat, firstRaw: (nat, nat, nat), lastRaw: (nat, nat, nat))

  /** Geometries that are not used for addresses as they are, or that addresses can be written in. */
  predicate Addressable(heads: nat, track: nat, size: nat) {
    heads > 0 ==> 0 < track && heads * track <= 255 * 63 && (Usable(heads, track) || size / 512 / (heads * track) > 1024)
  }

  class Mbr {
    var heads: nat
    var track: nat

    constructor (heads: nat, track: nat)
      ensures this.heads == heads && this.track == track
    {
      this.heads := heads;
      this.track := track;
    }

    /** Keeps the geometry of the disk if it takes at most 1024 cylinders, else works one out. */
    method Geometry(sectors: nat) returns (c: nat)
      requires sectors >= 255 * 63 && Addressable(heads, track, 512 * sectors)
      modifies this
      ensures Usable(heads, track) && c > 0 && c * (heads * track) <= sectors < (c + 1) * (heads * track)
    {
      c := 0;
      if heads > 0 {
        c := Quot(sectors, heads * track);
        Bounds(sectors, heads * track);
        AtLeastOne(sectors, heads * track);
      }
      if c > 1024 || heads == 0 {
        var g := GetGeometry(sectors);
        c := g.c;
        heads := g.h;
        track := g.s;
        OneCylinder(g, sectors);
      }
    }

    /** mkpart: first sector, count and end addresses of a partition at a byte offset, within a size. */
    method MkPart(offset: nat, size: nat) returns (first: nat, total: nat, from: Option<Chs>, to: Option<Chs>)
      requires offset % 512 == 0 && size / 512 >= 255 * 63 && Addressable(heads, track, size)
      modifies this
      ensures Usable(heads, track) && first == offset / 512 && 0 < total && 512 * (first + total) <= offset + size
      ensures exists c: nat :: Largest(c, heads * track, size / 512) && 512 * total == PartSize(offset, size, c,
          heads * track * 512)
      ensures EndsWell(offset, size, 512 * (heads * track), 512 * total)
      ensures 512 * total <= 8422686720 ==> from == ToChs(first, heads, track) && to == ToChs(first + total - 1, heads, track)
      ensures 512 * total > 8422686720 ==> from == ToChs(first, 255, 63) && to == Some(Chs(1023, 254, 63))
    {
      hide PartSize, EndsWell;
      SameSectors(heads, track, size);
      var c := Geometry(size / 512);
      PartFits(offset, size, c, heads * track);
      PartSectors(offset, size, c, heads * track);
      PartEnds(offset, size, c, heads * track);
      var h, s := heads, track;
      var partsize := PartSize(offset, size, c, h * s * 512);
      if partsize > CHS_LIMIT {
        h, s := 255, 63;
      }
      first := offset / 512;
      total := partsize / 512;
      from := ToChs(first, h, s);
      to := if partsize > CHS_LIMIT then Some(Chs(1023, 254, 63)) else ToChs(first + total - 1, h, s);
      assert 512 * total == partsize;
    }

    /** setpart for the primary partition: addresses past cylinder 1023 become the customary ones. */
    method SetPart(start: nat, size: nat) returns (e: Entry)
      requires start % 512 == 0 && size / 512 >= 255 * 63 && Addressable(heads, track, size)
      modifies this
      ensures e.first == start / 512 && 0 < e.total && 512 * (e.first + e.total) <= start + size
      ensures 512 * e.total > size - 2 * 255 * 63 * 512 - 512
      ensures Usable(heads, track) && ReadsBack(e, heads, track)
      ensures EndsWell(start, size, 512 * (heads * track), 512 * e.total)
    {
      hide EndsWell, ToRaw, FromRaw, ToLba, ToChs, ReadsBack, PartSize, Largest;
      var first, total, from, to := MkPart(start, size);
      ghost var c: nat :| Largest(c, heads * track, size / 512) && 512 * total == PartSize(start, size, c, heads * track * 512);
      TracksBound(heads, track);
      LittleLost(start, size, c, heads * track);
      HasAddress(first, heads, track);
      HasAddress(first, 255, 63);
      HasAddress(first + total - 1, heads, track);
      var a := if from.value.c > 1023 then Chs(0, 0, 1) else from.value;
      var b := if to.value.c > 1023 then Chs(1023, 254, 63) else to.value;
      e := Entry(first, total, ToRaw(a), ToRaw(b));
      StartReadsBack(first, heads, track, from.value);
      EndReadsBack(first + total - 1, heads, track, to.value);
      EntryReadsBack(e, heads, track);
    }
  }

  lemma TracksBound(heads: nat, track: nat)
    requires Usable(heads, track)
    ensures 0 < heads * track <= 255 * 63
  {
    Mono(heads, 255, track);
  }

  lemma HasAddress(lba: nat, hpc: nat, spc: nat)
    requires Usable(hpc, spc)
    ensures ToChs(lba, hpc, spc).Some?
  {
  }

  /** Where the partition starts. */
  ghost predicate StartsAt(raw: (nat, nat, nat), lba: nat, heads: nat, track: nat) {
    FromRaw(raw) == Chs(0, 0, 1) || ToLba(FromRaw(raw), heads, track) == Some(lba as int) || ToLba(FromRaw(raw),
        255, 63) == Some(lba as int)
  }

  ghost predicate EndsAt(raw: (nat, nat, nat), lba: nat, heads: nat, track: nat) {
    FromRaw(raw) == Chs(1023, 254, 63) || ToLba(FromRaw(raw), heads, track) == Some(lba as int)
  }

  lemma StartReadsBack(lba: nat, heads: nat, track: nat, a: Chs)
    requires Usable(heads, track) && (ToChs(lba, heads, track) == Some(a) || ToChs(lba, 255, 63) == Some(a))
    ensures StartsAt(ToRaw(if a.c > 1023 then Chs(0, 0, 1) else a), lba, heads, track)
  {
    hide ToRaw, FromRaw, ToLba, ToChs;
    RawRoundTrip(Chs(0, 0, 1));
    ReadBack(lba, heads, track);
    ReadBack(lba, 255, 63);
  }

  lemma EndReadsBack(lba: nat, heads: nat, track: nat, a: Chs)
    requires Usable(heads, track) && (ToChs(lba, heads, track) == Some(a) || a == Chs(1023, 254, 63))
    ensures EndsAt(ToRaw(if a.c > 1023 then Chs(1023, 254, 63) else a), lba, heads, track)
  {
    hide ToRaw, FromRaw, ToLba, ToChs;
    RawRoundTrip(Chs(1023, 254, 63));
    ReadBack(lba, heads, track);
  }

  lemma EntryReadsBack(e: Entry, heads: nat, track: nat)
    requires e.first + e.total > 0
    requires StartsAt(e.firstRaw, e.first, heads, track) && EndsAt(e.lastRaw, e.first + e.total - 1, heads, track)
    ensures ReadsBack(e, heads, track)
  {
  }

  /** The raw addresses give the sectors back, or are the customary ones for sectors out of reach. */
  ghost predicate ReadsBack(e: Entry, heads: nat, track: nat) {
    && e.first + e.total > 0
    && StartsAt(e.firstRaw, e.first, heads, track) && EndsAt(e.lastRaw, e.first + e.total - 1, heads, track)
  }

  /** An address within 1024 cylinders leads back to its sector. */
  lemma ReadBack(lba: nat, hpc: nat, spc: nat)
    requires Usable(hpc, spc)
    ensures var a := ToChs(lba, hpc, spc).value; a.c <= 1023 ==> ToLba(FromRaw(ToRaw(a)), hpc, spc) == Some(lba)
  {
    ChsRoundTrip(lba, hpc, spc);
    var a := ToChs(lba, hpc, spc).value;
    if a.c <= 1023 {
      RawRoundTrip(a);
    }
  }

  lemma AtLeastOne(n: nat, m: nat)
    requires 0 < m <= n
    ensures Quot(n, m) > 0
  {
    QuotMono(n, m, n);
  }

  lemma OneCylinder(g: Chs, sectors: nat)
    requires Spans(g, sectors) && sectors >= 255 * 63
    ensures g.c > 0
  {
    Mono(g.h, 255, g.s);
  }

  lemma SameSectors(heads: nat, track: nat, size: nat)
    requires Addressable(heads, track, size)
    ensures Addressable(heads, track, 512 * (size / 512))
  {
    assert 512 * (size / 512) / 512 == size / 512;
  }
}
