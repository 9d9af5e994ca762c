/** The footer of a VHD and its checksum. */
module VhdFooter {
  import opened Bytes

  /** Where the footer keeps its checksum. */
  const CHECKSUM: nat := 0x40

  function Sum(s: seq<Byte>): (r: nat)
    ensures r <= 255 * |s|
  {
    if s == [] then 0 else s[0] + Sum(s[1..])
  }

  /** mk_crc: the complement of the byte sum, big-endian. */
  function Checksum(s: seq<Byte>): (r: seq<Byte>)
    requires |s| <= 0x1_0000
    ensures |r| == 4 && U32BE(r, 0) == 0xFFFF_FFFF - Sum(s)
  {
    Pack32BE(0xFFFF_FFFF - Sum(s))
  }

  lemma {:induction false} SumGrows(s: seq<Byte>, b: Byte)
    ensures Sum(s + [b]) == Sum(s) + b as int
  {
    if s != [] {
      SumGrows(s[1..], b);
      assert (s + [b])[1..] == s[1..] + [b];
    }
  }

  /** The checksum of nothing is all ones, and a byte more lowers it, as a number with its high byte first, by that
      byte. */
  lemma ChecksumGrows(s: seq<Byte>, b: Byte)
    requires |s| < 0x1_0000
    ensures Checksum([]) == [0xFF, 0xFF, 0xFF, 0xFF]
    ensures var c, e := Checksum(s), Checksum(s + [b]);
      0x100_0000 * e[0] as int + 0x1_0000 * e[1] as int + 256 * e[2] as int + e[3] as int + b as int ==
      0x100_0000 * c[0] as int + 0x1_0000 * c[1] as int + 256 * c[2] as int + c[3] as int
  {
    SumGrows(s, b);
    var z := Checksum([]);
    assert U32BE(z, 0) == 0xFFFF_FFFF;
    hide Sum, Checksum;
  }

  /** A footer or header with its checksum field, at k, zeroed. */
  function Unchecked(s: seq<Byte>, k: nat): (r: seq<Byte>)
    requires k + 4 <= |s|
    ensures |r| == |s|
  {
    s[..k] + [0, 0, 0, 0] + s[k + 4..]
  }

  /** The field at k holds the checksum of the rest. */
  predicate CarriesChecksum(s: seq<Byte>, k: nat) {
    k + 4 <= |s| <= 0x1_0000 && s[k..k + 4] == Checksum(Unchecked(s, k))
  }

  /** Putting the checksum of b where b has zeros. */
  lemma Checked(b: seq<Byte>, k: nat)
    requires k + 4 <= |b| <= 0x1_0000 && b[k..k + 4] == [0, 0, 0, 0]
    ensures CarriesChecksum(b[..k] + Checksum(b) + b[k + 4..], k)
  {
    hide Checksum;
    var r := b[..k] + Checksum(b) + b[k + 4..];
    assert b == b[..k] + b[k..k + 4] + b[k + 4..];
    assert r[..k] == b[..k] && r[k + 4..] == b[k + 4..];
    assert r[k..k + 4] == Checksum(b);
  }

  /** A byte sum is too small for zeros to be a checksum. */
  lemma ZeroesNever(s: seq<Byte>, k: nat)
    requires k + 4 <= |s| <= 0x1_0000 && s[k..k + 4] == [0, 0, 0, 0]
    ensures !CarriesChecksum(s, k)
  {
    var c := Checksum(Unchecked(s, k));
    assert U32BE(c, 0) == 0xFFFF_FFFF - Sum(Unchecked(s, k)) > 0;
  }

  /** pack: the fields as they were read, the checksum computed anew. */
  function Packed(ft: seq<Byte>): (r: seq<Byte>)
    requires |ft| == 512
    ensures |r| == 512 && forall k :: 0 <= k < 512 && !(CHECKSUM <= k < CHECKSUM + 4) ==> r[k] == ft[k]
  {
    ft[..CHECKSUM] + Checksum(Unchecked(ft, CHECKSUM)) + ft[CHECKSUM + 4..]
  }

  /** Packing leaves a footer as it was exactly if it carried its checksum. */
  lemma PackedExactly(ft: seq<Byte>)
    requires |ft| == 512
    ensures CarriesChecksum(ft, CHECKSUM) <==> Packed(ft) == ft
  {
    hide Checksum, Unchecked;
    var r := Packed(ft);
    assert r[CHECKSUM..CHECKSUM + 4] == Checksum(Unchecked(ft, CHECKSUM));
    assert ft == ft[..CHECKSUM] + ft[CHECKSUM..CHECKSUM + 4] + ft[CHECKSUM + 4..];
  }

  /** A packed footer carries its checksum, and packing it again changes nothing. */
  lemma PackedTwice(ft: seq<Byte>)
    requires |ft| == 512
    ensures CarriesChecksum(Packed(ft), CHECKSUM) && Packed(Packed(ft)) == Packed(ft)
  {
    hide Checksum;
    var b := Unchecked(ft, CHECKSUM);
    assert b[..CHECKSUM] == ft[..CHECKSUM] && b[CHECKSUM + 4..] == ft[CHECKSUM + 4..];
    assert Packed(ft) == b[..CHECKSUM] + Checksum(b) + b[CHECKSUM + 4..];
    Checked(b, CHECKSUM);
    PackedExactly(Packed(ft));
  }

  // ---- the copies in a container ----

  /** A byte of the trailing footer. */
  function Foot(d: seq<Byte>, k: int): Byte { At(d, |d| - 512 + k) }

  /** The first sector, and the last. */
  function Lead(d: seq<Byte>): (s: seq<Byte>)
    ensures |s| == 512 && forall k {:trigger s[k]} :: 0 <= k < 512 ==> s[k] == At(d, k)
  {
    seq(512, k requires 0 <= k < 512 => At(d, k))
  }

  function Trail(d: seq<Byte>): (s: seq<Byte>)
    ensures |s| == 512 && forall k {:trigger s[k]} :: 0 <= k < 512 ==> s[k] == Foot(d, k)
  {
    seq(512, k requires 0 <= k < 512 => Foot(d, k))
  }

  /** What opening looks for in sector 0, in the header behind it and in the last sector: "conectix" and "Wi2k",
      "cxsparse". */
  predicate Signed(d: seq<Byte>) {
    && |d| >= 2048 && d[0x200..0x208] == [99, 120, 115, 112, 97, 114, 115, 101]
    && d[..8] == d[|d| - 512..|d| - 504] == [99, 111, 110, 101, 99, 116, 105, 120]
    && d[0x24..0x28] == d[|d| - 476..|d| - 472] == [87, 105, 50, 107]
  }

  /** The footer and its copy in sector 0 are the same, as opening demands. */
  predicate Twins(d: seq<Byte>) { Trail(d) == Lead(d) }

  /** They are, or packing made the footer differ from the copy. */
  predicate Kin(d: seq<Byte>) { Twins(d) || Trail(d) == Packed(Lead(d)) }

  /** Once the footer has been packed the copies are the same exactly if the copy carries its checksum. */
  lemma TwinsExactly(d: seq<Byte>)
    requires Trail(d) == Packed(Lead(d))
    ensures Twins(d) <==> CarriesChecksum(Lead(d), CHECKSUM)
  {
    PackedExactly(Lead(d));
  }

  /** Packing the footer of a container again gives what packing its copy gives. */
  lemma KinPacked(d: seq<Byte>)
    requires Kin(d)
    ensures Packed(Trail(d)) == Packed(Lead(d))
  {
    PackedTwice(Lead(d));
  }
}
