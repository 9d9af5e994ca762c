/** What decides where a write to the cached disk goes, and exactly when it goes to the position. */
module CacheView {
  import opened Bytes
  import opened CacheAim

  /** A cached disk: its bytes, position, sector and offset, file position, whether no slot is left, what the next slot
      holds, the cached sectors, the last dirty one. */
  datatype View = View(d: seq<Byte>, pos: nat, si: nat, so: nat, at: nat, full: bool, slot: seq<Byte>, held: set<nat>,
      last: Option<nat>) {

    /** Sector and offset are the position's. */
    predicate InStep() { si == pos / 512 && so == pos % 512 }

    /** The file stands at a sector of the disk. */
    predicate Placed() {
      && so < 512 && |d| % 512 == 0 && pos <= |d| && 512 * si <= |d| && at % 512 == 0 && at <= |d|
      && (full || |slot| == 512)
    }

    /** What the next slot gets from where the file stands: a sector, or nothing at the end of the disk. */
    function Strays(): seq<Byte> { if at + 512 <= |d| then d[at..at + 512] else slot }

    /** Where a write would put its first bytes; a seek to where sector and offset point anyway does not count. */
    function Aimed(): Aim {
      Aim(pos, si, so, at, si !in held && full && !InStep(),
          if si !in held && !full && at != 512 * si then Some(Strays()) else None)
    }

    /** A write would go to the position. */
    predicate Ready() { InStep() && Aimed().fill.None? && (so == 0 ==> at == 512 * si) }

    /** A write of s does not raise, its first bytes go inside the disk, and if they pass the cache no slot is left that
        should have been dropped. */
    predicate Sound(s: seq<Byte>) {
      && pos + |s| <= |d| && Fits(d, Aimed(), s)
      && if so == 0 && |s| > 512 then
        at + |s| / 512 * 512 <= |d| && (at == 512 * si || si + |s| / 512 !in held)
      else Aimed().reseek || 512 * si + 512 <= |d|
    }

    /** After a seek. */
    function Sought(p: nat): View { this.(pos := p, si := p / 512, so := p % 512, at := 512 * (p / 512)) }

    /** After a flush, in ascending order: nothing is cached, the file stands behind the last dirty sector, or where it
        stood. */
    function Flushed(): View {
      this.(held := {}, last := None, at := if last.None? then at else 512 * last.value + 512)
    }
  }

  lemma AimIsProper(v: View)
    requires v.Placed()
    ensures v.Aimed().Proper()
  {
  }

  /** When the view is ready - after a seek, say - a write hits. */
  lemma ReadyHits(v: View, s: seq<Byte>)
    requires v.Placed() && v.Ready() && s != [] && v.pos + |s| <= |v.d|
    ensures Hits(v.Aimed(), |s|) && v.Sound(s) && Written(v.d, v.Aimed(), s) == Overwrite(v.d, v.pos, s)
  {
    hide Fits, Written, Overwrite;
    AimIsProper(v);
    HitsLands(v.d, v.Aimed(), s);
  }

  /** Zeros are left to write after a seek, and the disk has one at k. */
  predicate Blank(p: Progress, k: nat) {
    p.a.fill.None? && At(p.d, k) == 0 && forall j {:trigger p.rest[j]} :: 0 <= j < |p.rest| ==> p.rest[j] == 0
  }

  /** It stays so. */
  lemma StaysBlank(p: Progress, k: nat)
    requires Blank(p, k)
    ensures Blank(p.Body(), k) && Blank(p.Tail(), k)
  {
    hide Overwrite;
    AtOverwrite(p.d, p.a.at, p.rest[..p.Bulk()], k);
    AtOverwrite(p.d, p.a.Target(), p.rest, k);
  }

  /** A one among zeros. */
  function OneAt(i: nat, n: nat): (s: seq<Byte>)
    requires i < n
    ensures |s| == n && s[i] == 1 && forall j :: 0 <= j < n && j != i ==> s[j] == 0
  {
    Zeros(i) + [1] + Zeros(n - i - 1)
  }

  /** The one, first to be written, goes elsewhere; zeros are left. */
  lemma Missed(d: seq<Byte>, rest: seq<Byte>, k: nat, to: nat, m: nat, a: Aim)
    requires At(d, k) == 0 && to != k && 0 < m <= |rest|
    requires forall j {:trigger rest[j]} :: 0 < j < |rest| ==> rest[j] == 0
    requires a.fill.None?
    ensures Blank(Progress(Overwrite(d, to, rest[..m]), a, rest[m..]), k)
  {
    hide Overwrite;
    AtOverwrite(d, to, rest[..m], k);
  }

  /** So it is with the first bytes past the cache, */
  lemma BodyMissed(p: Progress, k: nat)
    requires At(p.d, k) == 0 && |p.rest| > 512 && p.a.at != k
    requires forall j {:trigger p.rest[j]} :: 0 < j < |p.rest| ==> p.rest[j] == 0
    ensures At(p.Body().Tail().d, k) == 0
  {
    hide Overwrite;
    Missed(p.d, p.rest, k, p.a.at, p.Bulk(), Seeked(p.a.pos + p.Bulk()));
    StaysBlank(p.Body(), k);
  }

  /** with the first bytes that complete a sector, */
  lemma HeadMissed(p: Progress, k: nat)
    requires At(p.a.Filled(p.d), k) == 0 && p.rest != [] && 0 < p.a.so < 512 && p.a.Target() != k
    requires forall j {:trigger p.rest[j]} :: 0 < j < |p.rest| ==> p.rest[j] == 0
    ensures At(p.Head().Body().Tail().d, k) == 0
  {
    hide Overwrite;
    Missed(p.a.Filled(p.d), p.rest, k, p.a.Target(), p.Part(), Seeked(p.a.pos + p.Part()));
    StaysBlank(p.Head(), k);
    StaysBlank(p.Head().Body(), k);
  }

  /** and with a sector's bytes at most. */
  lemma TailMissed(p: Progress, k: nat)
    requires At(p.a.Filled(p.d), k) == 0 && 0 < |p.rest| <= 512 && p.a.so == 0 && p.a.Target() != k
    requires forall j {:trigger p.rest[j]} :: 0 < j < |p.rest| ==> p.rest[j] == 0
    ensures At(p.Head().Body().Tail().d, k) == 0
  {
    hide Overwrite;
    AtOverwrite(p.a.Filled(p.d), p.a.Target(), p.rest, k);
  }

  /** What should be there: the byte of s, at its place. */
  lemma ShouldBe(d: seq<Byte>, p: nat, i: nat, n: nat)
    requires i < n
    ensures At(Overwrite(d, p, OneAt(i, n)), p + i) == 1
  {
    AtOverwrite(d, p, OneAt(i, n), p + i);
  }

  /** Room was made for a slot, the bytes that complete the old sector end inside the new one: the rest goes wrong. */
  lemma ReseekMissed(d: seq<Byte>, a: Aim, n: nat, s: seq<Byte>)
    requires 0 < a.so < 512 < a.pos % 512 + n && a.reseek && a.fill.None? && a.pos % 512 < a.so && 512 - a.so < n
    requires s == OneAt(512 - a.so, n) && At(d, a.pos + 512 - a.so) == 0
    ensures !Fits(d, a, s) || At(Written(d, a, s), a.pos + 512 - a.so) == 0
  {
    hide Overwrite, OneAt;
    var p, i := Progress(d, a, s), 512 - a.so;
    AtOverwrite(d, a.pos, s[..i], a.pos + i);
    var q := p.Head();
    assert q == Progress(Overwrite(d, a.pos, s[..i]), Seeked(a.pos + i), s[i..]);
    if |q.rest| > 512 {
      BodyMissed(q, a.pos + i);
    } else {
      assert (a.pos + i) % 512 == a.pos % 512 + i;
    }
  }

  predicate LandsOn(v: View, s: seq<Byte>) {
    Fits(v.d, v.Aimed(), s) && Written(v.d, v.Aimed(), s) == Overwrite(v.d, v.pos, s)
  }

  /** Whatever is on the disk and in the next slot, and whatever n bytes are written, they land at the position. */
  ghost predicate Lands(v: View, n: nat) {
    forall d: seq<Byte>, slot: seq<Byte>, s: seq<Byte> {:trigger LandsOn(v.(d := d, slot := slot), s)} ::
      |d| == |v.d| && |slot| == 512 && |s| == n ==> LandsOn(v.(d := d, slot := slot), s)
  }

  /** A disk of zeros stays so when a slot is filled with zeros. */
  lemma AllZeros(a: Aim, n: nat, k: nat)
    requires a.fill.Some? ==> a.fill.value == Zeros(512)
    ensures At(Zeros(n), k) == 0 == At(a.Filled(Zeros(n)), k)
  {
    hide Overwrite;
    if a.fill.Some? {
      AtOverwrite(Zeros(n), 512 * a.si, a.fill.value, k);
    }
  }

  lemma ZerosStray(v: View)
    requires v.Placed() && v.d == Zeros(|v.d|) && v.slot == Zeros(512)
    ensures v.Aimed().fill.Some? ==> v.Aimed().fill.value == Zeros(512)
  {
    assert v.at + 512 <= |v.d| ==> v.d[v.at..v.at + 512] == Zeros(512);
  }

  /** On a disk of zeros: a write that does not hit, unless only its slot comes from elsewhere. */
  lemma MissShown(v: View, n: nat) returns (s: seq<Byte>)
    requires v.Placed() && v.d == Zeros(|v.d|) && v.slot == Zeros(512) && n > 0
    requires var a := v.Aimed(); !Hits(a, n) && (a.reseek || (a.so == 0 && n > 512) || a.Target() != a.pos)
    ensures |s| == n && !LandsOn(v, s)
  {
    hide Overwrite, OneAt, View.Aimed, View.Strays;
    AimIsProper(v);
    ZerosStray(v);
    AimIs(v);
    hide View.Placed;
    var a := v.Aimed();
    AllZeros(a, |v.d|, v.pos);
    s := OneAt(0, n);
    ShouldBe(v.d, a.pos, 0, n);
    var p := Progress(v.d, a, s);
    if a.so == 0 && n > 512 {
      BodyMissed(p, a.pos);
    } else if !a.reseek && a.so != 0 {
      HeadMissed(p, a.pos);
    } else if !a.reseek {
      TailMissed(p, a.pos);
    } else if a.so != 0 && a.SlotFits(p.Part()) {
      s := OneAt(512 - a.so, n);
      ShouldBe(v.d, a.pos, 512 - a.so, n);
      AllZeros(a, |v.d|, v.pos + 512 - a.so);
      ReseekMissed(v.d, a, n, s);
    }
  }

  lemma AimIs(v: View)
    ensures v.Aimed().pos == v.pos && v.Aimed().si == v.si && v.Aimed().so == v.so && v.Aimed().at == v.at
  {
  }

  /** What a write into a slot filled from elsewhere comes to. */
  lemma StrayWritten(v: View, s: seq<Byte>)
    requires v.Placed() && v.Aimed().fill.Some? && v.Aimed().Target() == v.pos && s != [] && (v.so != 0 || |s| <= 512)
    ensures Written(v.d, v.Aimed(), s) == Overwrite(Overwrite(v.d, 512 * v.si, v.Strays()), v.pos, s)
    ensures v.at != 512 * v.si && |v.Strays()| == 512
  {
    hide Overwrite, Written, Fits;
    AimIsProper(v);
    if v.so != 0 {
      HeadLands(v.d, v.Aimed(), s);
    } else {
      SlotLands(v.d, v.Aimed(), s);
    }
  }

  lemma StrayZero(v: View, j: nat)
    requires v.Placed() && v.at != 512 * v.si && |v.Strays()| == 512 && j < 512 && 512 * v.si + j < |v.d|
    requires v.d == OneAt(512 * v.si + j, |v.d|) && v.slot == Zeros(512)
    ensures v.Strays()[j] == 0 && At(v.d, 512 * v.si + j) == 1
  {
    hide OneAt;
  }

  lemma LandsIs(v: View, s: seq<Byte>)
    requires LandsOn(v, s)
    ensures Written(v.d, v.Aimed(), s) == Overwrite(v.d, v.pos, s)
  {
  }

  /** The slot of the right sector gets another sector's zeros: a one on the disk that is not overwritten is lost. */
  lemma StrayShown(v: View, j: nat, s: seq<Byte>)
    requires v.Placed() && v.Aimed().fill.Some? && v.Aimed().Target() == v.pos && s != [] && v.pos + |s| <= |v.d|
    requires j < 512 && 512 * v.si + j < |v.d| && !(v.pos <= 512 * v.si + j < v.pos + |s|)
    requires v.d == OneAt(512 * v.si + j, |v.d|) && v.slot == Zeros(512) && (v.so != 0 || |s| <= 512)
    ensures !LandsOn(v, s)
  {
    hide *;
    StrayWritten(v, s);
    StrayZero(v, j);
    var k, e := 512 * v.si + j, Overwrite(v.d, 512 * v.si, v.Strays());
    AtOverwrite(e, v.pos, s, k);
    AtOverwrite(v.d, v.pos, s, k);
    AtOverwrite(v.d, 512 * v.si, v.Strays(), k);
    if LandsOn(v, s) {
      LandsIs(v, s);
    }
  }

  /** Only the bytes of the disk and of the slot differ: a write hits in both or in neither. */
  lemma SameHits(v: View, d: seq<Byte>, slot: seq<Byte>, n: nat)
    requires v.Placed() && |d| == |v.d| && |slot| == 512
    ensures var w := v.(d := d, slot := slot); w.Placed() && (Hits(w.Aimed(), n) <==> Hits(v.Aimed(), n))
  {
  }

  /** A write of n bytes lands at the position, whatever is on the disk and whatever is written, exactly if it hits. */
  lemma LandsExactly(v: View, n: nat)
    requires v.Placed() && n > 0 && v.pos + n <= |v.d|
    ensures Hits(v.Aimed(), n) <==> Lands(v, n)
  {
    hide Hits, Written, Overwrite, Fits, View.Aimed, View.Placed;
    if Hits(v.Aimed(), n) {
      forall d: seq<Byte>, slot: seq<Byte>, s: seq<Byte> {:trigger LandsOn(v.(d := d, slot := slot), s)} |
        |d| == |v.d| && |slot| == 512 && |s| == n ensures LandsOn(v.(d := d, slot := slot), s)
      {
        SameHits(v, d, slot, n);
        AimIsProper(v.(d := d, slot := slot));
        AimIs(v.(d := d, slot := slot));
        HitsLands(d, v.(d := d, slot := slot).Aimed(), s);
      }
    } else {
      var d, s := Unlanded(v, n);
      assert !LandsOn(v.(d := d, slot := Zeros(512)), s);
    }
  }

  /** The other way not to hit: the sector is right, its slot is not, and a byte of it is left. */
  lemma StrayLeft(v: View, n: nat, j: nat)
    requires v.Placed() && n > 0 && v.pos + n <= |v.d| && !Hits(v.Aimed(), n) && j == if v.so == 0 then n else 0
    requires var a := v.Aimed(); !(a.reseek || (a.so == 0 && n > 512) || a.Target() != a.pos)
    ensures v.Aimed().fill.Some? && v.Aimed().Target() == v.pos && (v.so != 0 || n <= 512)
    ensures j < 512 && 512 * v.si + j < |v.d| && !(v.pos <= 512 * v.si + j < v.pos + n)
  {
  }

  /** Another disk, where sector and offset are the same. */
  lemma SameTarget(v: View, d: seq<Byte>, slot: seq<Byte>)
    requires v.Placed() && |d| == |v.d| && |slot| == 512
    ensures var a, b := v.Aimed(), v.(d := d, slot := slot).Aimed();
      a.reseek == b.reseek && a.fill.Some? == b.fill.Some? && a.so == b.so == v.so && a.pos == b.pos == v.pos &&
      a.Target() == b.Target()
  {
  }

  lemma Unlanded(v: View, n: nat) returns (d: seq<Byte>, s: seq<Byte>)
    requires v.Placed() && n > 0 && v.pos + n <= |v.d| && !Hits(v.Aimed(), n)
    ensures |d| == |v.d| && |s| == n && !LandsOn(v.(d := d, slot := Zeros(512)), s)
  {
    hide *;
    var a, zeros := v.Aimed(), Zeros(512);
    Lengths(512);
    Lengths(|v.d|);
    Lengths(n);
    if a.reseek || (a.so == 0 && n > 512) || a.Target() != a.pos {
      d := Zeros(|v.d|);
      SameHits(v, d, zeros, n);
      SameTarget(v, d, zeros);
      s := MissShown(v.(d := d, slot := zeros), n);
    } else {
      var j := if v.so == 0 then n else 0;
      StrayLeft(v, n, j);
      d, s := OneAt(512 * v.si + j, |v.d|), Zeros(n);
      SameHits(v, d, zeros, n);
      SameTarget(v, d, zeros);
      StrayShown(v.(d := d, slot := zeros), j, s);
    }
  }

  lemma Lengths(n: nat)
    ensures |Zeros(n)| == n
  {
  }

  /** Straight after a flush, from in step, n bytes land at the position exactly if the file then stands at its sector -
      where it stood, if nothing was dirty, or behind the last dirty sector - or they need not be put into a slot filled
      from there: they are a whole sector, or no slot is left and the code seeks again. */
  lemma LandsFlushed(v: View, n: nat)
    requires v.Placed() && v.Flushed().Placed() && v.InStep() && n > 0 && v.pos + n <= |v.d|
    ensures Lands(v.Flushed(), n) <==>
        (if v.last.None? then v.at == 512 * v.si else v.last.value + 1 == v.si) ||
        (if v.so == 0 && n >= 512 then n == 512 else v.full)
  {
    hide Lands;
    LandsExactly(v.Flushed(), n);
  }
}
