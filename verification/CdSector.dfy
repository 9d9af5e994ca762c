/** Raw CD sectors, and the 2048 bytes of user data in them. */
module CdSector {
  import opened Bytes
  import opened Bits

  const RAW: nat := 2352

  /** A sector by its number. */
  type Sectors = nat -> seq<Byte>

  datatype Form = Mode1 | Mode2Form1 | Mode2Form2 | Invalid

  /** 00 FF*10 00 */
  function Sync(): seq<Byte> { [0] + Fill(10, 0xFF) + [0] }

  /** identify_sector_form; Invalid stands for its errors. */
  function FormOf(s: seq<Byte>): Form {
    if |s| != RAW || s[..12] != Sync() then Invalid
    else if s[15] == 1 then Mode1
    else if s[15] != 2 || s[16..20] != s[20..24] then Invalid
    else if And(s[18], 0x20) != 0 then Mode2Form2
    else Mode2Form1
  }

  /** extract_2048_user_data; there is none in an invalid sector or one of form 2. */
  function UserData(s: seq<Byte>): (r: Option<seq<Byte>>)
    ensures r.Some? ==> |r.value| == 2048
    ensures r.Some? <==> FormOf(s).Mode1? || FormOf(s).Mode2Form1?
  {
    match FormOf(s)
    case Mode1 => Some(s[16..2064])
    case Mode2Form1 => Some(s[24..2072])
    case _ => None
  }

  /** In bytes: a whole raw sector with its sync pattern, and one of mode 2 with two equal subheaders. */
  predicate HasSync(s: seq<Byte>) {
    |s| == 2352 && s[..12] == [0, 255, 255, 255, 255, 255, 255, 255, 255, 255, 255, 0]
  }

  predicate IsMode2(s: seq<Byte>) { HasSync(s) && s[15] == 2 && s[16..20] == s[20..24] }

  /** Mode 1 in byte 15, or mode 2 with the form bit clear. */
  predicate HasData(s: seq<Byte>) { HasSync(s) && (s[15] == 1 || (IsMode2(s) && s[18] / 32 % 2 == 0)) }

  /** Byte j of the data in such a sector: they start at byte 16 in mode 1, at byte 24 in mode 2. */
  predicate DataByte(s: seq<Byte>, j: nat, b: Byte) {
    HasData(s) && j < 2048 && b == if s[15] == 1 then s[16 + j] else s[24 + j]
  }

  lemma MaskHalf(x: nat, b: nat)
    ensures And(x, 2 * b) == 2 * And(x / 2, b)
  {
    assert 2 * b / 2 == b && 2 * b % 2 == 0;
  }

  lemma FormBit(x: nat)
    ensures And(x, 0x20) != 0 <==> x / 32 % 2 == 1
  {
    var y := x / 2 / 2 / 2 / 2 / 2;
    assert y == x / 32;
    MaskHalf(x, 0x10);
    MaskHalf(x / 2, 8);
    MaskHalf(x / 2 / 2, 4);
    MaskHalf(x / 2 / 2 / 2, 2);
    MaskHalf(x / 2 / 2 / 2 / 2, 1);
    assert And(y, 1) == B2(y % 2 == 1) by {
      AndNone(y / 2);
    }
    hide And;
  }

  /** The forms in bytes. */
  lemma FormBytes(s: seq<Byte>)
    ensures FormOf(s).Mode1? <==> HasData(s) && s[15] == 1
    ensures FormOf(s).Mode2Form1? <==> HasData(s) && s[15] == 2
    ensures FormOf(s).Mode2Form2? <==> IsMode2(s) && s[18] / 32 % 2 == 1
  {
    assert Sync() == [0, 255, 255, 255, 255, 255, 255, 255, 255, 255, 255, 0];
    if |s| == RAW {
      FormBit(s[18]);
    }
    hide And;
  }

  /** There is user data exactly in such a sector, and it is those bytes. */
  lemma UserDataBytes(s: seq<Byte>)
    ensures UserData(s).Some? <==> HasData(s)
    ensures UserData(s).Some? ==> forall j :: 0 <= j < 2048 ==> DataByte(s, j, UserData(s).value[j])
  {
    assert Sync() == [0, 255, 255, 255, 255, 255, 255, 255, 255, 255, 255, 0];
    if |s| == RAW {
      FormBit(s[18]);
    }
    hide And;
  }

  /** n sectors in a row from a number on. */
  function Flat(f: Sectors, from: nat, n: nat): seq<Byte> {
    if n == 0 then [] else Flat(f, from, n - 1) + f(from + n - 1)
  }

  ghost predicate Sized(f: Sectors, from: nat, n: nat, size: nat) {
    forall k {:trigger f(k)} :: from <= k < from + n ==> |f(k)| == size
  }

  lemma {:induction false} FlatLength(f: Sectors, from: nat, n: nat, size: nat)
    requires Sized(f, from, n, size)
    ensures |Flat(f, from, n)| == n * size
  {
    if n > 0 {
      FlatLength(f, from, n - 1, size);
      assert |f(from + n - 1)| == size;
      assert n * size == (n - 1) * size + size;
    }
  }

  lemma {:induction false} FlatAppend(f: Sectors, from: nat, n: nat, m: nat)
    ensures Flat(f, from, n) + Flat(f, from + n, m) == Flat(f, from, n + m)
  {
    if m > 0 {
      FlatAppend(f, from, n, m - 1);
      var a, b, c := Flat(f, from, n), Flat(f, from + n, m - 1), f(from + n + m - 1);
      assert a + (b + c) == (a + b) + c;
    } else {
      assert Flat(f, from, n) + [] == Flat(f, from, n);
    }
  }

  /** Sector k of a stretch. */
  lemma FlatSector(f: Sectors, from: nat, n: nat, size: nat, k: nat)
    requires k < n && Sized(f, from, n, size)
    ensures (k + 1) * size <= n * size == |Flat(f, from, n)|
    ensures Flat(f, from, n)[k * size..(k + 1) * size] == f(from + k)
  {
    FlatLength(f, from, n, size);
    FlatLength(f, from, k, size);
    FlatLength(f, from, k + 1, size);
    FlatAppend(f, from, k + 1, n - k - 1);
    Mono(k + 1, n, size);
    var a := Flat(f, from, k);
    assert Flat(f, from, k + 1) == a + f(from + k);
    hide Flat;
    assert (k + 1) * size == k * size + size;
    Tail(a, f(from + k), Flat(f, from + k + 1, n - k - 1));
  }

  lemma Tail(a: seq<Byte>, b: seq<Byte>, c: seq<Byte>)
    ensures (a + b + c)[|a|..|a| + |b|] == b
  {
  }

  /** f from a on and g from b on give the same n sectors. */
  ghost predicate Agree(f: Sectors, g: Sectors, a: nat, b: nat, n: nat) {
    forall k: nat {:trigger f(k)} :: a <= k < a + n ==> f(k) == g(b + (k - a))
  }

  lemma {:induction false} FlatSame(f: Sectors, g: Sectors, a: nat, b: nat, n: nat)
    requires Agree(f, g, a, b, n)
    ensures Flat(f, a, n) == Flat(g, b, n)
  {
    if n > 0 {
      FlatSame(f, g, a, b, n - 1);
      assert f(a + (n - 1)) == g(b + (n - 1));
    }
  }

  /** A drive over a disc: every read fails or gives exactly the sectors asked for; nothing is known of which. */
  class Drive {
    const sector: Sectors
    const size: nat
    const fails: nat -> bool     // by the number of the attempt
    var attempts: nat
    ghost var failures: nat

    constructor (sector: Sectors, size: nat, fails: nat -> bool)
      ensures this.sector == sector && this.size == size && this.fails == fails && failures == 0
    {
      this.sector := sector;
      this.size := size;
      this.fails := fails;
      attempts := 0;
      failures := 0;
    }

    method Read(lba: nat, count: nat) returns (r: Option<seq<Byte>>)
      modifies this
      ensures r.Some? ==> r.value == Flat(sector, lba, count) && failures == old(failures)
      ensures r.None? ==> failures == old(failures) + 1
      ensures r.None? <==> fails(old(attempts))
    {
      attempts := attempts + 1;
      if fails(attempts - 1) {
        failures := failures + 1;
        return None;
      }
      r := Some(Flat(sector, lba, count));
    }
  }
}
