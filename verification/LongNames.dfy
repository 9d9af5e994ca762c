/** Long file names in FAT directory slots: thirteen UTF-16 units each, last part first. */
module LongNames {
  import opened Bytes

  /** A UTF-16 code unit. */
  type Unit = x: int | 0 <= x < 0x1_0000

  datatype Result = Ok(buf: seq<Byte>) | TooLong

  function Halves(u: Unit): (r: seq<Byte>)
    ensures |r| == 2 && Joined(r[0], r[1]) == u
  {
    [u % 256, u / 256]
  }

  function Joined(lo: Byte, hi: Byte): Unit { lo as int + 256 * (hi as int) }

  function Encode(name: seq<Unit>): (r: seq<Byte>)
    ensures |r| == 2 * |name|
  {
    if name == [] then [] else Encode(name[..|name| - 1]) + Halves(name[|name| - 1])
  }

  function Decode(b: seq<Byte>): (r: seq<Unit>)
    ensures |r| == |b| / 2
  {
    if |b| < 2 then []
    else
      var n := |b| / 2 - 1;
      Decode(b[..2 * n]) + [Joined(b[2 * n], b[2 * n + 1])]
  }

  lemma {:induction false} DecodeAt(b: seq<Byte>, k: nat)
    requires k < |b| / 2
    ensures Decode(b)[k] == Joined(b[2 * k], b[2 * k + 1])
  {
    if k < |b| / 2 - 1 {
      DecodeAt(b[..2 * (|b| / 2 - 1)], k);
    }
  }

  lemma {:induction false} EncodeAt(name: seq<Unit>, k: nat)
    requires k < |name|
    ensures Joined(Encode(name)[2 * k], Encode(name)[2 * k + 1]) == name[k]
  {
    if k < |name| - 1 {
      EncodeAt(name[..|name| - 1], k);
    }
  }

  /** Closed by a NUL unless the bytes end exactly with a slot, then filled with 0xFF to the end of the slot. */
  function Closed(b: seq<Byte>): seq<Byte> { if |b| % 26 != 0 then b + [0, 0] else b }

  function Filled(c: seq<Byte>): seq<Byte> { if |c| % 26 != 0 then c + Fill(26 - |c| % 26, 0xFF) else c }

  /** The name in bytes as the slots carry it. */
  function Padded(name: seq<Unit>): seq<Byte> { Filled(Closed(Encode(name))) }

  lemma FilledFacts(c: seq<Byte>)
    ensures |Filled(c)| % 26 == 0 && |c| <= |Filled(c)| < |c| + 26 && Filled(c)[..|c|] == c
    ensures forall k :: |c| <= k < |Filled(c)| ==> Filled(c)[k] == 0xFF
  {
    var q, r := |c| / 26, |c| % 26;
    assert |c| == 26 * q + r;
    if r != 0 {
      assert |Filled(c)| == 26 * (q + 1);
    }
  }

  lemma PaddedFacts(name: seq<Unit>)
    ensures |Padded(name)| % 26 == 0 && 2 * |name| <= |Padded(name)| < 2 * |name| + 26
    ensures Padded(name)[..2 * |name|] == Encode(name)
    ensures |Padded(name)| > 2 * |name| ==> |Padded(name)| >= 2 * |name| + 2 && Padded(name)[2 * |name|] == Padded(name)[2 * |name| + 1] == 0
  {
    var b := Encode(name);
    var c := Closed(b);
    FilledFacts(c);
    RoundedUp(|name|, c);
    assert c[..|b|] == b;
    assert Filled(c)[..|b|] == Filled(c)[..|c|][..|b|];
    if |c| > |b| {
      assert c[|b|] == 0 && c[|b| + 1] == 0;
      assert Filled(c)[|b|] == Filled(c)[..|c|][|b|] && Filled(c)[|b| + 1] == Filled(c)[..|c|][|b| + 1];
    }
  }

  lemma RoundedUp(n: nat, c: seq<Byte>)
    requires |c| == 2 * n + if 2 * n % 26 != 0 then 2 else 0
    ensures |Filled(c)| < 2 * n + 26
  {
    var q, r := n / 13, n % 13;
    assert n == 13 * q + r && 2 * n == 26 * q + 2 * r;
    assert 2 * n % 26 == 2 * r;
    if r == 12 {
      assert |c| == 26 * (q + 1);
    }
  }

  lemma FewSlots(name: seq<Unit>)
    requires |name| <= 255
    ensures |Padded(name)| / 26 <= 20 && (|name| > 0 ==> |Padded(name)| / 26 > 0)
  {
    PaddedFacts(name);
    hide Padded;
  }

  /** A slice assignment, which may change the length as Python's does. */
  function Spliced(b: seq<Byte>, i: nat, j: nat, s: seq<Byte>): seq<Byte>
    requires i <= |b| && i <= j
  {
    b[..i] + s + b[Min(j, |b|)..]
  }

  /** One slot: number, three stretches of the name, type and checksum. */
  function Slot(number: Byte, csum: Byte, part: seq<Byte>): (b: seq<Byte>)
    requires |part| == 26
    ensures |b| == 32
    ensures b[0] == number && b[1..11] == part[..10] && b[14..26] == part[10..22] && b[28..32] == part[22..]
    ensures b[11] == 0x0F && b[13] == csum && b[12] == b[26] == b[27] == 0
  {
    [number] + part[..10] + [0x0F, 0, csum] + part[10..22] + [0, 0] + part[22..]
  }

  /** Where the two bytes of each unit lie in a slot. */
  const PLACES: seq<nat> := [1, 3, 5, 7, 9, 14, 16, 18, 20, 22, 24, 28, 30]

  /** The unit at a byte, the low half first. */
  function UnitAt(buf: seq<Byte>, at: nat): nat
    requires at + 2 <= |buf|
  {
    buf[at] as int + 256 * (buf[at + 1] as int)
  }

  lemma PlaceIn(k: nat)
    requires k < 13
    ensures |PLACES| == 13
    ensures PLACES[k] == if k < 5 then 1 + 2 * k else if k < 11 then 4 + 2 * k else 6 + 2 * k
  {
  }

  /** Unit k of a slot is unit k of its part. */
  lemma SlotUnit(b: seq<Byte>, number: Byte, csum: Byte, part: seq<Byte>, k: nat)
    requires |part| == 26 && k < 13 && b == Slot(number, csum, part)
    ensures |PLACES| == 13 && PLACES[k] + 2 <= 32 && UnitAt(b, PLACES[k]) == UnitAt(part, 2 * k)
  {
    hide Slot;
    PlaceIn(k);
    if k < 5 {
      assert b[1..11][2 * k] == part[..10][2 * k] && b[1..11][2 * k + 1] == part[..10][2 * k + 1];
    } else if k < 11 {
      var i := 2 * k - 10;
      assert b[14..26][i] == part[10..22][i] && b[14..26][i + 1] == part[10..22][i + 1];
    } else {
      var i := 2 * k - 22;
      assert b[28..32][i] == part[22..][i] && b[28..32][i + 1] == part[22..][i + 1];
    }
  }

  /** The checksum of the short name: rotate right, add, keep a byte. */
  function Checksum(short: seq<Byte>): Byte {
    if short == [] then 0
    else
      var sum := Checksum(short[..|short| - 1]);
      (sum % 2 * 128 + sum / 2 + short[|short| - 1]) % 256
  }

  /** One byte more. */
  lemma Turn(s: seq<Byte>, k: nat, c: Byte, sum: Byte, next: Byte)
    requires k < |s| && s[k] == c && Checksum(s[..k]) == sum && (sum % 2 * 128 + sum / 2 + c) % 256 == next
    ensures Checksum(s[..k + 1]) == next
  {
    assert s[..k + 1][..k] == s[..k];
  }

  lemma ReadmeStem(s: seq<Byte>)
    requires |s| >= 6 && s[0] == 82 && s[1] == 69 && s[2] == 65 && s[3] == 68 && s[4] == 77 && s[5] == 69
    ensures Checksum(s[..6]) == 11
  {
    assert Checksum(s[..0]) == 0;
    hide Checksum;
    Turn(s, 0, 82, 0, 82);
    Turn(s, 1, 69, 82, 110);
    Turn(s, 2, 65, 110, 120);
    Turn(s, 3, 68, 120, 128);
    Turn(s, 4, 77, 128, 141);
    Turn(s, 5, 69, 141, 11);
  }

  /** README.TXT has checksum 115. */
  lemma ReadmeChecksum(s: seq<Byte>)
    requires s == [82, 69, 65, 68, 77, 69, 32, 32, 84, 88, 84]
    ensures Checksum(s) == 115
  {
    hide Checksum;
    ReadmeStem(s);
    Turn(s, 6, 32, 11, 165);
    Turn(s, 7, 32, 165, 242);
    Turn(s, 8, 84, 242, 205);
    Turn(s, 9, 88, 205, 62);
    Turn(s, 10, 84, 62, 115);
    assert s[..11] == s;
  }

  method ComputeChecksum(short: seq<Byte>) returns (sum: Byte)
    ensures sum == Checksum(short)
  {
    sum := 0;
    var i := 0;
    while i < |short|
      invariant i <= |short| && sum == Checksum(short[..i])
    {
      assert short[..i + 1][..i] == short[..i];
      sum := (sum % 2 * 128 + sum / 2 + short[i]) % 256;
      i := i + 1;
    }
    assert short[..|short|] == short;
  }

  /** The k-th part of the padded name, counted from one. */
  function Part(padded: seq<Byte>, k: nat): (p: seq<Byte>)
    requires 0 < k <= |padded| / 26
    ensures |p| == 26
  {
    padded[(k - 1) * 26..k * 26]
  }

  /** Slots n down to 1, without the mark on the first. */
  function Slots(padded: seq<Byte>, csum: Byte, n: nat): (r: seq<Byte>)
    requires n <= |padded| / 26 && n < 64
    ensures |r| == 32 * n
  {
    if n == 0 then [] else Slot(n, csum, Part(padded, n)) + Slots(padded, csum, n - 1)
  }

  /** The slots of a name: the first one marked as the last part, the short entry at the end. */
  function Entry(name: seq<Unit>, short: seq<Byte>, plain: seq<Byte>): seq<Byte>
    requires 0 < |name| <= 255
  {
    FewSlots(name);
    var slots := |Padded(name)| / 26;
    Slot(slots + 0x40, Checksum(short), Part(Padded(name), slots)) + Slots(Padded(name), Checksum(short),
        slots - 1) + plain
  }

  /** GenRawSlotFromName: the short entry, preceded by the slots of the long name if there is one. */
  method GenRawSlots(name: seq<Unit>, short: seq<Byte>, plain: seq<Byte>) returns (r: Result)
    ensures |name| > 255 <==> r.TooLong?
    ensures |name| == 0 ==> r == Ok(plain)
    ensures 0 < |name| <= 255 ==> r == Ok(Entry(name, short, plain))
  {
    hide Padded, Slots, Slot, Part, Checksum;
    if |name| == 0 {
      return Ok(plain);
    }
    var bytes := Encode(name);
    if |bytes| > 510 {
      return TooLong;
    }
    var csum := ComputeChecksum(short);
    FewSlots(name);
    var buf := AllSlots(Padded(name), csum);
    r := Ok(buf + plain);
  }

  /** Slots from the last part to the first, then the mark on the first slot. */
  method AllSlots(padded: seq<Byte>, csum: Byte) returns (buf: seq<Byte>)
    requires 0 < |padded| / 26 <= 20
    ensures var n := |padded| / 26; buf == Slot(n + 0x40, csum, Part(padded, n)) + Slots(padded, csum, n - 1)
  {
    hide Slot, Part, Slots;
    var slots: nat := |padded| / 26;
    ghost var n := slots;
    buf := [];
    assert buf + Slots(padded, csum, slots) == Slots(padded, csum, n);
    while slots > 0
      invariant slots <= n == |padded| / 26 && n <= 20
      invariant buf + Slots(padded, csum, slots) == Slots(padded, csum, n)
    {
      var b := MakeSlot(slots, csum, padded);
      SlotsStep(buf, padded, csum, slots);
      buf := buf + b;
      slots := slots - 1;
    }
    NoSlots(padded, csum);
    assert buf + [] == buf;
    MarkFirst(buf, padded, csum, n);
    buf := buf[0 := buf[0] + 0x40];
  }

  lemma NoSlots(padded: seq<Byte>, csum: Byte)
    ensures Slots(padded, csum, 0) == []
  {
  }

  lemma SlotsStep(buf: seq<Byte>, padded: seq<Byte>, csum: Byte, slots: nat)
    requires 0 < slots <= |padded| / 26 && slots < 64
    ensures buf + Slots(padded, csum, slots) == buf + Slot(slots, csum, Part(padded, slots)) + Slots(padded, csum,
        slots - 1)
  {
  }

  lemma MarkFirst(buf: seq<Byte>, padded: seq<Byte>, csum: Byte, n: nat)
    requires 0 < n <= |padded| / 26 && n <= 20 && buf == Slots(padded, csum, n)
    ensures |buf| > 0 && buf[0] + 0x40 < 256
    ensures buf[0 := buf[0] + 0x40] == Slot(n + 0x40, csum, Part(padded, n)) + Slots(padded, csum, n - 1)
  {
  }

  /** One slot as it is filled in place: the twelve bytes put for thirteen are made up by the four put for three. */
  method MakeSlot(slots: nat, csum: Byte, padded: seq<Byte>) returns (b: seq<Byte>)
    requires 0 < slots <= |padded| / 26 && slots <= 20
    ensures b == Slot(slots, csum, Part(padded, slots))
  {
    var j := (slots - 1) * 26;
    ghost var p := Part(padded, slots);
    SubSlice(padded, j, j + 26, 0, 10);
    SubSlice(padded, j, j + 26, 10, 22);
    SubSlice(padded, j, j + 26, 22, 26);
    b := Zeros(32);
    b := b[0 := slots];
    SpliceOver([slots as Byte], Zeros(10), Zeros(21), p[..10]);
    assert b == [slots as Byte] + Zeros(10) + Zeros(21);
    b := Spliced(b, 1, 11, padded[j..j + 10]);
    hide Spliced;
    ghost var h := [slots as Byte] + p[..10] + [0x0F, 0, csum];
    b := b[11 := 0x0F];
    b := b[13 := csum];
    assert b == h + Zeros(13) + Zeros(5);
    SpliceOver(h, Zeros(13), Zeros(5), p[10..22]);
    b := Spliced(b, 14, 27, padded[j + 10..j + 22]);
    assert b == (h + p[10..22] + [0, 0]) + Zeros(3) + [];
    SpliceOver(h + p[10..22] + [0, 0], Zeros(3), [], p[22..]);
    b := Spliced(b, 28, 32, padded[j + 22..j + 26]);
    assert b == h + p[10..22] + [0, 0] + p[22..];
  }

  /** Replacing a stretch, or all there is from a point on. */
  lemma SpliceOver(a: seq<Byte>, was: seq<Byte>, c: seq<Byte>, s: seq<Byte>)
    ensures Spliced(a + was + c, |a|, |a| + |was|, s) == a + s + c
    ensures c == [] ==> Spliced(a + was + c, |a|, |a| + |was| + 1, s) == a + s
  {
  }

  predicate IsLfn(buf: seq<Byte>)
    requires |buf| >= 32
  {
    buf[0x0B] == 0x0F && buf[0x0C] == buf[0x1A] == buf[0x1B] == 0
  }

  /** The name's bytes in the slot at i. */
  function NameBytes(buf: seq<Byte>, i: nat): (r: seq<Byte>)
    requires i + 32 <= |buf|
    ensures |r| == 26
  {
    buf[i + 1..i + 11] + buf[i + 14..i + 26] + buf[i + 28..i + 32]
  }

  /** Up to the first NUL, if there is one. */
  function UpToNul(s: seq<Unit>): seq<Unit> {
    if s == [] || s[0] == 0 then [] else [s[0]] + UpToNul(s[1..])
  }

  /** The name bytes of the k slots before the short entry, nearest first. */
  function Gathered(buf: seq<Byte>, k: nat): (r: seq<Byte>)
    requires |buf| >= 32 * k + 32
    ensures |r| == 26 * k
  {
    if k == 0 then [] else Gathered(buf, k - 1) + NameBytes(buf, |buf| - 32 - 32 * k)
  }

  /** Unit k of the slot at a byte. */
  lemma NameUnit(buf: seq<Byte>, at: nat, k: nat)
    requires at + 32 <= |buf| && k < 13
    ensures |PLACES| == 13 && at + PLACES[k] + 2 <= |buf|
    ensures UnitAt(NameBytes(buf, at), 2 * k) == UnitAt(buf, at + PLACES[k])
  {
    PlaceIn(k);
    var b := NameBytes(buf, at);
    assert b[2 * k] == buf[at + PLACES[k]];
    assert b[2 * k + 1] == buf[at + PLACES[k] + 1];
  }

  /** Unit m of a name, thirteen to a slot, from the slot before the short entry backwards. */
  function UnitRead(buf: seq<Byte>, m: nat): nat {
    var at := |buf| - 64 - 32 * (m / 13);
    if at < 0 || |PLACES| != 13 then 0 else
      assert PLACES[m % 13] + 2 <= 32 by { PlaceIn(m % 13); }
      UnitAt(buf, at + PLACES[m % 13])
  }

  lemma {:induction false} GatheredUnit(buf: seq<Byte>, k: nat, m: nat)
    requires |buf| >= 32 * k + 32 && m < 13 * k
    ensures UnitAt(Gathered(buf, k), 2 * m) == UnitRead(buf, m)
  {
    hide NameBytes;
    if m < 13 * (k - 1) {
      GatheredUnit(buf, k - 1, m);
    } else {
      var j := m - 13 * (k - 1);
      assert m / 13 == k - 1 && m % 13 == j;
      NameUnit(buf, |buf| - 32 - 32 * k, j);
    }
  }

  lemma {:induction false} UpToNulIs(s: seq<Unit>)
    ensures |UpToNul(s)| <= |s| && (|UpToNul(s)| < |s| ==> s[|UpToNul(s)|] == 0)
    ensures forall k :: 0 <= k < |UpToNul(s)| ==> UpToNul(s)[k] == s[k] != 0
  {
    if s != [] && s[0] != 0 {
      UpToNulIs(s[1..]);
      assert UpToNul(s) == [s[0]] + UpToNul(s[1..]);
    }
  }

  /** The units of the slots up to the first NUL. */
  ghost predicate ReadAs(buf: seq<Byte>, name: seq<Unit>) {
    && |name| <= 13 * (|buf| / 32 - 1)
    && (forall m :: 0 <= m < |name| ==> name[m] == UnitRead(buf, m) != 0)
    && (|name| < 13 * (|buf| / 32 - 1) ==> UnitRead(buf, |name|) == 0)
  }

  lemma DecodedUnit(buf: seq<Byte>, n: nat, m: nat)
    requires |buf| >= 32 * n + 32 && m < 13 * n
    ensures Decode(Gathered(buf, n))[m] == UnitRead(buf, m)
  {
    hide *;
    DecodeAt(Gathered(buf, n), m);
    GatheredUnit(buf, n, m);
    HalvesAt(Gathered(buf, n), m);
  }

  lemma HalvesAt(b: seq<Byte>, m: nat)
    requires 2 * m + 2 <= |b|
    ensures Joined(b[2 * m], b[2 * m + 1]) == UnitAt(b, 2 * m)
  {
  }

  lemma NameReadAs(buf: seq<Byte>, n: nat)
    requires |buf| / 32 - 1 == n && |buf| % 32 == 0
    ensures ReadAs(buf, UpToNul(Decode(Gathered(buf, n))))
  {
    var s := Decode(Gathered(buf, n));
    assert |s| == 13 * n;
    hide Gathered, Decode, UpToNul, UnitRead;
    UpToNulIs(s);
    forall m | 0 <= m < |s| ensures s[m] == UnitRead(buf, m) {
      DecodedUnit(buf, n, m);
    }
  }

  /** LongName: reads the slots from the last to the first. */
  method LongName(buf: seq<Byte>) returns (name: seq<Unit>)
    requires |buf| >= 32 && |buf| % 32 == 0
    ensures name == if IsLfn(buf) then UpToNul(Decode(Gathered(buf, |buf| / 32 - 1))) else []
    ensures if buf[11] == 15 && buf[12] == buf[26] == buf[27] == 0 then ReadAs(buf, name) else name == []
  {
    hide NameBytes, Decode, UpToNul, ReadAs;
    NameReadAs(buf, |buf| / 32 - 1);
    if !IsLfn(buf) {
      return [];
    }
    var i := |buf| - 64;
    var bytes: seq<Byte> := [];
    ghost var k, n := 0, |buf| / 32 - 1;
    assert |buf| == 32 * n + 32;
    while i >= 0
      invariant i == 32 * n - 32 - 32 * k && k <= n && bytes == Gathered(buf, k)
    {
      bytes := bytes + NameBytes(buf, i);
      i := i - 32;
      k := k + 1;
    }
    assert k == n;
    name := UpToNul(Decode(bytes));
  }

  // ---- the round trip ----

  lemma SubSlice(s: seq<Byte>, a: nat, b: nat, c: nat, d: nat)
    requires a <= b <= |s| && c <= d <= b - a
    ensures s[a..b][c..d] == s[a + c..a + d]
  {
    var x, y := s[a..b][c..d], s[a + c..a + d];
    forall k | 0 <= k < d - c ensures x[k] == y[k] {
    }
  }

  lemma Middle(head: seq<Byte>, mid: seq<Byte>, tail: seq<Byte>, a: nat, b: nat)
    requires a <= b <= |mid|
    ensures (head + mid + tail)[|head| + a..|head| + b] == mid[a..b]
  {
  }

  /** Slot k counted from the short entry lies where it is read, and gives its part of the name. */
  lemma {:induction false} SlotsGive(padded: seq<Byte>, csum: Byte, n: nat, head: seq<Byte>, plain: seq<Byte>, k: nat)
    requires n <= |padded| / 26 && n < 64 && k <= n && |plain| == 32
    ensures var buf := head + Slots(padded, csum, n) + plain; |buf| >= 32 * k + 32 && Gathered(buf, k) == padded[..26 * k]
    decreases k
  {
    hide Slots, Slot, NameBytes, Part;
    var slots := Slots(padded, csum, n);
    var buf := head + slots + plain;
    assert |buf| == |head| + 32 * n + 32;
    if k > 0 {
      SlotsGive(padded, csum, n, head, plain, k - 1);
      SlotFromEnd(padded, csum, n, k);
      Middle(head, slots, plain, 32 * n - 32 * k, 32 * n - 32 * k + 32);
      SlotGives(buf, |buf| - 32 - 32 * k, k, csum, Part(padded, k));
      NextPart(padded, k);
    }
  }

  lemma NextPart(padded: seq<Byte>, k: nat)
    requires 0 < k <= |padded| / 26
    ensures padded[..26 * (k - 1)] + Part(padded, k) == padded[..26 * k]
  {
  }

  /** Where slot k is among n. */
  lemma {:induction false} SlotFromEnd(padded: seq<Byte>, csum: Byte, n: nat, k: nat)
    requires 0 < k <= n <= |padded| / 26 && n < 64
    ensures Slots(padded, csum, n)[32 * n - 32 * k..32 * n - 32 * k + 32] == Slot(k, csum, Part(padded, k))
    decreases n
  {
    hide Slot, Part;
    if k < n {
      SlotFromEnd(padded, csum, n - 1, k);
      var rest := Slots(padded, csum, n - 1);
      assert Slots(padded, csum, n) == Slot(n, csum, Part(padded, n)) + rest;
      assert Slots(padded, csum, n)[32 * n - 32 * k..32 * n - 32 * k + 32] == rest[32 * (n - 1) - 32 * k..32 * (n - 1) - 32 * k + 32];
    }
  }

  lemma SlotGives(buf: seq<Byte>, at: nat, number: Byte, csum: Byte, part: seq<Byte>)
    requires at + 32 <= |buf| && |part| == 26 && buf[at..at + 32] == Slot(number, csum, part)
    ensures NameBytes(buf, at) == part
  {
    var b := Slot(number, csum, part);
    hide Slot;
    SubSlice(buf, at, at + 32, 1, 11);
    SubSlice(buf, at, at + 32, 14, 26);
    SubSlice(buf, at, at + 32, 28, 32);
    Pieces(part);
    assert buf[at + 1..at + 11] == b[1..11];
    assert buf[at + 14..at + 26] == b[14..26];
    assert buf[at + 28..at + 32] == b[28..32];
  }

  lemma Pieces(part: seq<Byte>)
    requires |part| == 26
    ensures part[..10] + part[10..22] + part[22..] == part
  {
  }

  /** The slots of a name as one byte string: the marked one, the others, the short entry. */
  lemma AllGathered(padded: seq<Byte>, csum: Byte, n: nat, plain: seq<Byte>)
    requires 0 < n <= 20 && |padded| == 26 * n && |plain| == 32
    ensures var buf := Slot(n + 0x40, csum, Part(padded, n)) + Slots(padded, csum, n - 1) + plain;
      |buf| == 32 * n + 32 && Gathered(buf, n) == padded
  {
    hide Slots, Slot, Part, NameBytes;
    var first, rest := Slot(n + 0x40, csum, Part(padded, n)), Slots(padded, csum, n - 1);
    var buf := first + rest + plain;
    SlotsGive(padded, csum, n - 1, first, plain, n - 1);
    Middle([], first, rest + plain, 0, 32);
    Grouped(first, rest, plain);
    SlotGives(buf, 0, n + 0x40, csum, Part(padded, n));
    LastPart(padded, n);
    assert |buf| - 32 - 32 * n == 0;
  }

  /** All the name bytes come back, whatever the mark on the first slot. */
  lemma EntryGives(name: seq<Unit>, short: seq<Byte>, plain: seq<Byte>)
    requires 0 < |name| <= 255 && |plain| == 32
    ensures var buf := Entry(name, short, plain);
      |buf| % 32 == 0 && |buf| == |Padded(name)| / 26 * 32 + 32 && Gathered(buf, |buf| / 32 - 1) == Padded(name)
  {
    hide Padded, Checksum, Slots, Slot, Part, Gathered;
    PaddedFacts(name);
    FewSlots(name);
    AllGathered(Padded(name), Checksum(short), |Padded(name)| / 26, plain);
  }

  lemma Grouped(a: seq<Byte>, b: seq<Byte>, c: seq<Byte>)
    ensures [] + a + (b + c) == a + b + c
  {
  }

  lemma LastPart(padded: seq<Byte>, n: nat)
    requires 0 < n && |padded| == 26 * n
    ensures padded[..26 * (n - 1)] + Part(padded, n) == padded
  {
  }

  lemma {:induction false} CutAtNul(name: seq<Unit>, tail: seq<Unit>)
    requires tail == [] || tail[0] == 0
    ensures UpToNul(name + tail) == UpToNul(name)
  {
    if name != [] {
      assert (name + tail)[1..] == name[1..] + tail;
      CutAtNul(name[1..], tail);
    }
  }

  ghost predicate NoNul(name: seq<Unit>) { forall k :: 0 <= k < |name| ==> name[k] != 0 }

  lemma {:induction false} NulFree(name: seq<Unit>)
    ensures UpToNul(name) == name <==> NoNul(name)
  {
    if name != [] {
      NulFree(name[1..]);
      if NoNul(name) {
        forall k | 0 <= k < |name| - 1 ensures name[1..][k] != 0 {
        }
      } else if name[0] != 0 {
        var k :| 0 <= k < |name| && name[k] == 0;
        assert name[1..][k - 1] == 0;
        assert UpToNul(name)[1..] == UpToNul(name[1..]);
      }
    }
  }

  /** What is decoded from the padded bytes starts with the name, and then ends or has a NUL. */
  lemma PaddedDecodes(name: seq<Unit>)
    ensures UpToNul(Decode(Padded(name))) == UpToNul(name)
  {
    PaddedFacts(name);
    var p := Padded(name);
    var d := Decode(p);
    hide Padded, Decode, Encode;
    forall k | 0 <= k < |name| ensures d[k] == name[k] {
      DecodeAt(p, k);
      EncodeAt(name, k);
      assert p[2 * k] == p[..2 * |name|][2 * k] && p[2 * k + 1] == p[..2 * |name|][2 * k + 1];
    }
    if |p| > 2 * |name| {
      DecodeAt(p, |name|);
    }
    assert d == name + d[|name|..];
    CutAtNul(name, d[|name|..]);
  }

  /** A name of 1 to 255 units is read back from the slots made for it exactly if it has no NUL. */
  lemma LongNameRoundTrip(name: seq<Unit>, short: seq<Byte>, plain: seq<Byte>)
    requires 0 < |name| <= 255 && |plain| == 32
    ensures var buf := Entry(name, short, plain); |buf| % 32 == 0 && |buf| >= 64 && IsLfn(buf)
    ensures UpToNul(Decode(Gathered(Entry(name, short, plain), |Entry(name, short, plain)| / 32 - 1))) == name <==> NoNul(name)
  {
    hide Entry, Gathered, Decode, Padded, UpToNul, NoNul;
    EntryGives(name, short, plain);
    PaddedDecodes(name);
    NulFree(name);
    FewSlots(name);
    FirstIsLfn(name, short, plain);
  }

  /** Writing a name and reading it. */
  method NameThere(name: seq<Unit>, short: seq<Byte>, plain: seq<Byte>) returns (back: seq<Unit>)
    requires 0 < |name| <= 255 && |plain| == 32 && NoNul(name)
    ensures back == name
  {
    hide *;
    LongNameRoundTrip(name, short, plain);
    var r := GenRawSlots(name, short, plain);
    back := LongName(r.buf);
  }

  lemma FirstIsLfn(name: seq<Unit>, short: seq<Byte>, plain: seq<Byte>)
    requires 0 < |name| <= 255 && |plain| == 32
    ensures |Entry(name, short, plain)| >= 32 && IsLfn(Entry(name, short, plain))
  {
    hide Slots, Part, Padded, Checksum;
  }

  /** Slot i of n lies at 32 * i, and holds the part counted from the end; the short entry comes last. */
  lemma SlotOf(name: seq<Unit>, short: seq<Byte>, plain: seq<Byte>, i: nat)
    requires 0 < |name| <= 255 && |plain| == 32 && i < |Padded(name)| / 26
    ensures var buf, n := Entry(name, short, plain), |Padded(name)| / 26;
      && |buf| == 32 * n + 32 && n == (|name| + 12) / 13 <= 20 && buf[32 * n..] == plain
      && buf[32 * i..32 * i + 32] ==
          Slot(n - i + (if i == 0 then 0x40 else 0), Checksum(short), Part(Padded(name), n - i))
  {
    hide Padded, Checksum, Slots, Part, Slot;
    PaddedFacts(name);
    FewSlots(name);
    var padded, csum, buf := Padded(name), Checksum(short), Entry(name, short, plain);
    var n := |padded| / 26;
    var first := Slot(n + 0x40, csum, Part(padded, n));
    var rest := Slots(padded, csum, n - 1);
    if i == 0 {
      Middle([], first, rest + plain, 0, 32);
      Grouped(first, rest, plain);
    } else {
      SlotFromEnd(padded, csum, n - 1, n - i);
      Middle(first, rest, plain, 32 * (i - 1), 32 * (i - 1) + 32);
    }
  }

  /** Slots are numbered downwards, only the first is marked 0x40, and all carry type and checksum. */
  lemma SlotHeads(name: seq<Unit>, short: seq<Byte>, plain: seq<Byte>, i: nat)
    requires 0 < |name| <= 255 && |plain| == 32 && i < (|name| + 12) / 13
    ensures var buf, n := Entry(name, short, plain), (|name| + 12) / 13;
      && |buf| == 32 * n + 32 && buf[32 * n..] == plain
      && buf[32 * i] == n - i + (if i == 0 then 0x40 else 0) && buf[32 * i + 11] == 15
      && buf[32 * i + 13] == Checksum(short) && buf[32 * i + 12] == buf[32 * i + 26] == buf[32 * i + 27] == 0
  {
    hide *;
    SlotCount(name);
    SlotOf(name, short, plain, i);
    var n := |Padded(name)| / 26;
    HeadOf(Entry(name, short, plain), 32 * i, n - i + (if i == 0 then 0x40 else 0), Checksum(short),
        Part(Padded(name), n - i));
  }

  /** Unit k of slot i is the name's unit 13 * (n - 1 - i) + k; past the name come one NUL and then ones. */
  lemma SlotUnits(name: seq<Unit>, short: seq<Byte>, plain: seq<Byte>, i: nat, k: nat)
    requires 0 < |name| <= 255 && |plain| == 32 && i < (|name| + 12) / 13 && k < 13
    ensures var buf, m := Entry(name, short, plain), 13 * ((|name| + 12) / 13 - 1 - i) + k;
      && |PLACES| == 13 && 32 * i + PLACES[k] + 2 <= |buf|
      && UnitAt(buf, 32 * i + PLACES[k]) == if m < |name| then name[m] else if m == |name| then 0 else 0xFFFF
  {
    hide *;
    SlotCount(name);
    SlotOf(name, short, plain, i);
    var n := |Padded(name)| / 26;
    UnitOf(Entry(name, short, plain), 32 * i, n - i + (if i == 0 then 0x40 else 0), Checksum(short),
        Part(Padded(name), n - i), k);
    PartUnit(Padded(name), n - i, k);
    PaddedUnit(name, 13 * (n - 1 - i) + k);
  }

  lemma UnitOf(buf: seq<Byte>, at: nat, number: Byte, csum: Byte, part: seq<Byte>, k: nat)
    requires at + 32 <= |buf| && |part| == 26 && k < 13 && buf[at..at + 32] == Slot(number, csum, part)
    ensures |PLACES| == 13 && at + PLACES[k] + 2 <= |buf| && UnitAt(buf, at + PLACES[k]) == UnitAt(part, 2 * k)
  {
    hide Slot;
    var slot := buf[at..at + 32];
    SlotUnit(slot, number, csum, part, k);
    assert slot[PLACES[k]] == buf[at + PLACES[k]] && slot[PLACES[k] + 1] == buf[at + PLACES[k] + 1];
  }

  lemma SlotCount(name: seq<Unit>)
    ensures |Padded(name)| / 26 == (|name| + 12) / 13
  {
    PaddedFacts(name);
    hide Padded;
  }

  lemma PartUnit(padded: seq<Byte>, k: nat, j: nat)
    requires 0 < k <= |padded| / 26 && j < 13
    ensures 2 * (13 * (k - 1) + j) + 2 <= |padded|
    ensures UnitAt(Part(padded, k), 2 * j) == UnitAt(padded, 2 * (13 * (k - 1) + j))
  {
    assert Part(padded, k)[2 * j] == padded[26 * (k - 1) + 2 * j];
    assert Part(padded, k)[2 * j + 1] == padded[26 * (k - 1) + 2 * j + 1];
  }

  /** The name in units, as it is padded. */
  lemma PaddedUnit(name: seq<Unit>, m: nat)
    requires 2 * m + 2 <= |Padded(name)|
    ensures UnitAt(Padded(name), 2 * m) == if m < |name| then name[m] else if m == |name| then 0 else 0xFFFF
  {
    PaddedFacts(name);
    FilledFacts(Closed(Encode(name)));
    assert |Closed(Encode(name))| <= 2 * |name| + 2;
    var p := Padded(name);
    assert forall k :: 2 * |name| + 2 <= k < |p| ==> p[k] == 0xFF;
    hide Padded, Encode, Closed;
    if m < |name| {
      EncodeAt(name, m);
      assert p[2 * m] == p[..2 * |name|][2 * m] && p[2 * m + 1] == p[..2 * |name|][2 * m + 1];
    }
  }

  lemma HeadOf(buf: seq<Byte>, at: nat, number: Byte, csum: Byte, part: seq<Byte>)
    requires at + 32 <= |buf| && |part| == 26 && buf[at..at + 32] == Slot(number, csum, part)
    ensures buf[at] == number && buf[at + 11] == 15 && buf[at + 13] == csum
    ensures buf[at + 12] == buf[at + 26] == buf[at + 27] == 0
  {
    var b := buf[at..at + 32];
    assert b[0] == buf[at] && b[11] == buf[at + 11] && b[13] == buf[at + 13];
    assert b[12] == buf[at + 12] && b[26] == buf[at + 26] && b[27] == buf[at + 27];
  }
}
