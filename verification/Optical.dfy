/** The drive's table of contents, and the disc as a seekable stream of user data. */
module Optical {
  import opened Bytes
  import opened Bits
  import opened CdSector
  import opened Ripper

  function BE16(d: seq<Byte>, k: nat): nat
    requires k + 2 <= |d|
  {
    256 * (d[k] as int) + d[k + 1] as int
  }

  /** A descriptor of the table: number, data or audio, first sector. */
  datatype Entry = Entry(number: nat, isData: bool, lba: nat)

  const LEADOUT: nat := 0xAA

  function EntryAt(d: seq<Byte>, k: nat): Entry
    requires k + 8 <= |d|
  {
    Entry(d[k + 2], And(d[k + 1] % 16, 4) != 0, U32BE(d, k + 4))
  }

  /** The first lead-out among the entries. */
  function FindLeadout(es: seq<Entry>): Option<nat> {
    if es == [] then None else if es[0].number == LEADOUT then Some(es[0].lba) else FindLeadout(es[1..])
  }

  function TracksOf(es: seq<Entry>): seq<Entry> {
    if es == [] then [] else (if es[0].number == LEADOUT then [] else [es[0]]) + TracksOf(es[1..])
  }

  /** A sector as the drive reads it, or nothing if the read fails. */
  type Reader = nat -> Option<seq<Byte>>

  /** Kind of a track: a data track's from its first sector, none if that cannot be read or is no data sector. */
  function KindOf(e: Entry, read: Reader): Option<Kind> {
    if !e.isData then Some(Audio)
    else if read(e.lba).None? then None
    else
      match FormOf(read(e.lba).value)
      case Invalid => None
      case Mode1 => Some(Mode1Track)
      case _ => Some(Mode2Track)
  }

  datatype Toc = Toc(tracks: seq<Track>) | BadToc

  /** Where a track ends: before the next one, or before the lead-out. */
  function EndOf(es: seq<Entry>, i: nat, leadout: nat): int
    requires i < |es|
  {
    (if i + 1 < |es| then es[i + 1].lba else leadout) - 1
  }

  /** The entries in the response, as far as its length field and the response go. */
  function EntriesIn(data: seq<Byte>): seq<Entry>
    requires |data| >= 4
  {
    var n := Max(0, (Min(BE16(data, 0) + 2, |data|) - 4) / 8);
    seq(n, i requires 0 <= i < n => EntryAt(data, 4 + 8 * i))
  }

  /** In bytes, descriptor i: the control bit for data, the number, the address, big-endian. */
  ghost predicate EntryBytes(data: seq<Byte>, i: nat, e: Entry) {
    && 8 * i + 12 <= |data| && e.number == data[8 * i + 6] && (e.isData <==> data[8 * i + 5] / 4 % 2 == 1)
    && e.lba == 0x100_0000 * data[8 * i + 8] as int + 0x1_0000 * data[8 * i + 9] as int +
      256 * data[8 * i + 10] as int + data[8 * i + 11] as int
  }

  lemma ThirdBit(y: nat)
    ensures And(y, 4) != 0 <==> y / 4 % 2 == 1
  {
    MaskHalf(y, 2);
    MaskHalf(y / 2, 1);
    assert y / 2 / 2 == y / 4;
    assert And(y / 4, 1) == B2(y / 4 % 2 == 1) by {
      AndNone(y / 4 / 2);
    }
    hide And;
  }

  lemma Quarter(n: nat, q: nat)
    ensures (n + 16 * q) / 4 == n / 4 + 4 * q
  {
  }

  lemma Parity(n: nat, q: nat)
    ensures (n + 4 * q) % 2 == n % 2
  {
  }

  lemma LowNibble(x: nat)
    ensures x % 16 / 4 % 2 == x / 4 % 2
  {
    Quarter(x % 16, x / 16);
    Parity(x % 16 / 4, x / 16);
  }

  lemma DataBit(x: nat)
    ensures And(x % 16, 4) != 0 <==> x / 4 % 2 == 1
  {
    hide And;
    ThirdBit(x % 16);
    LowNibble(x);
  }

  method Entries(data: seq<Byte>) returns (es: seq<Entry>)
    requires |data| >= 4
    ensures es == EntriesIn(data)
    ensures |es| == Max(0, (Min(256 * data[0] as int + data[1] as int + 2, |data|) - 4) / 8)
    ensures forall i {:trigger es[i]} :: 0 <= i < |es| ==> EntryBytes(data, i, es[i])
  {
    hide And;
    var total := Min(BE16(data, 0) + 2, |data|);
    es := [];
    var offset := 4;
    while offset < total - 7
      invariant offset == 4 + 8 * |es| && (|es| > 0 ==> offset <= total)
      invariant forall i {:trigger es[i]} :: 0 <= i < |es| ==> 4 + 8 * i + 8 <= |data| && es[i] == EntryAt(data, 4 + 8 * i)
      invariant forall i {:trigger es[i]} :: 0 <= i < |es| ==> EntryBytes(data, i, es[i])
    {
      DataBit(data[offset + 1]);
      es := es + [EntryAt(data, offset)];
      offset := offset + 8;
    }
  }

  ghost predicate FirstLeadout(es: seq<Entry>, i: nat)
    requires i < |es|
  {
    es[i].number == 0xAA && forall j :: 0 <= j < i ==> es[j].number != 0xAA
  }

  /** The lead-out is the first entry with number 0xAA, the tracks are all others. */
  lemma {:induction false} LeadoutIs(es: seq<Entry>)
    ensures FindLeadout(es).Some? <==> exists i :: 0 <= i < |es| && es[i].number == 0xAA
    ensures forall e :: e in TracksOf(es) <==> e in es && e.number != 0xAA
    ensures forall i {:trigger es[i]} :: 0 <= i < |es| && FirstLeadout(es, i) ==> FindLeadout(es) == Some(es[i].lba)
  {
    if es != [] {
      var rest := es[1..];
      LeadoutIs(rest);
      assert es == [es[0]] + rest;
      forall i {:trigger es[i]} | 0 < i < |es| && FirstLeadout(es, i) ensures FindLeadout(es) == Some(es[i].lba) {
        assert rest[i - 1] == es[i] && forall j :: 0 <= j < i - 1 ==> rest[j] == es[j + 1];
        assert FirstLeadout(rest, i - 1);
      }
      if exists i :: 0 <= i < |es| && es[i].number == 0xAA {
        var i :| 0 <= i < |es| && es[i].number == 0xAA;
        assert i > 0 ==> rest[i - 1] == es[i];
      }
      if FindLeadout(rest).Some? {
        var i :| 0 <= i < |rest| && rest[i].number == 0xAA;
        assert es[i + 1] == rest[i];
      }
    }
  }

  /** The kind of a track in bytes of its first sector: mode 1, or mode 2 of either form. */
  lemma KindBytes(e: Entry, read: Reader)
    requires e.isData && read(e.lba).Some?
    ensures KindOf(e, read) == Some(Mode1Track) <==> HasSync(read(e.lba).value) && read(e.lba).value[15] == 1
    ensures KindOf(e, read) == Some(Mode2Track) <==> IsMode2(read(e.lba).value)
    ensures KindOf(e, read) != Some(Audio)
  {
    hide FormOf;
    FormBytes(read(e.lba).value);
  }

  /** read_toc: the tracks of the response, one after the other up to the lead-out, if it describes any such disc of
      one session, and the first sector of every data track can be read and is one. */
  method ReadToc(sessions: nat, data: seq<Byte>, read: Reader) returns (r: Toc)
    ensures r.Toc? <==> sessions == 1 && |data| >= 4 && Described(EntriesIn(data), read)
    ensures r.Toc? ==> Follows(r.tracks, TracksOf(EntriesIn(data)), FindLeadout(EntriesIn(data)).value, read)
    ensures r.Toc? ==> Contiguous(r.tracks)
  {
    if sessions != 1 || |data| < 4 {
      return BadToc;
    }
    var all := Entries(data);
    var lead := FindLeadout(all);
    var es := TracksOf(all);
    if es == [] || lead.None? {
      return BadToc;
    }
    var tracks: seq<Track> := [];
    var i := 0;
    while i < |es|
      invariant i <= |es| && |tracks| == i
      invariant forall k {:trigger Good(es, k, lead.value, read)} :: 0 <= k < i ==> Good(es, k, lead.value, read)
      invariant forall k {:trigger tracks[k]} :: 0 <= k < i ==> IsTrack(tracks[k], es, k, lead.value, read)
    {
      var end := EndOf(es, i, lead.value);
      var kind := KindOf(es[i], read);
      if kind.None? || es[i].number < 1 || end < es[i].lba {
        assert !Good(es, i, lead.value, read);
        return BadToc;
      }
      assert Good(es, i, lead.value, read);
      tracks := tracks + [Track(es[i].number, kind.value, es[i].lba, end)];
      i := i + 1;
    }
    assert Follows(tracks, es, lead.value, read);
    FollowsContiguous(tracks, es, lead.value, read);
    r := Toc(tracks);
  }

  /** Entry k has a number, begins before it ends, and is audio or begins with a data sector. */
  ghost predicate Good(es: seq<Entry>, k: nat, leadout: nat, read: Reader) {
    k < |es| && es[k].number >= 1 && es[k].lba <= EndOf(es, k, leadout) && KindOf(es[k], read).Some?
  }

  /** There are tracks and a lead-out, and every track is good. */
  ghost predicate Described(all: seq<Entry>, read: Reader) {
    && TracksOf(all) != [] && FindLeadout(all).Some?
    && var es, leadout := TracksOf(all), FindLeadout(all).value;
      forall k {:trigger Good(es, k, leadout, read)} :: 0 <= k < |es| ==> Good(es, k, leadout, read)
  }

  ghost predicate IsTrack(t: Track, es: seq<Entry>, k: nat, leadout: nat, read: Reader) {
    && Good(es, k, leadout, read)
    && t == Track(es[k].number, KindOf(es[k], read).value, es[k].lba, EndOf(es, k, leadout))
  }

  /** The tracks are those of the entries, each up to the next, the last up to the lead-out. */
  ghost predicate Follows(tracks: seq<Track>, es: seq<Entry>, leadout: nat, read: Reader) {
    && |tracks| == |es| > 0
    && forall k {:trigger tracks[k]} :: 0 <= k < |tracks| ==> IsTrack(tracks[k], es, k, leadout, read)
  }

  lemma FollowsContiguous(tracks: seq<Track>, es: seq<Entry>, leadout: nat, read: Reader)
    requires Follows(tracks, es, leadout, read)
    ensures Contiguous(tracks) && tracks[|tracks| - 1].end + 1 == leadout
  {
    hide KindOf;
    forall i {:trigger tracks[i].end} | 0 <= i < |tracks| - 1 ensures tracks[i + 1].start == tracks[i].end + 1 {
      assert IsTrack(tracks[i], es, i, leadout, read) && IsTrack(tracks[i + 1], es, i + 1, leadout, read);
    }
    forall i {:trigger tracks[i]} | 0 <= i < |tracks| ensures tracks[i].start <= tracks[i].end {
      assert IsTrack(tracks[i], es, i, leadout, read);
    }
    assert IsTrack(tracks[|tracks| - 1], es, |tracks| - 1, leadout, read);
  }

  /** Sectors numbered from another one on. */
  function From(f: Sectors, start: nat): Sectors { (k: nat) => f(start + k) }

  /** The user data of raw sectors, with zeros standing for those that have none. */
  function Plain(raw: Sectors): Sectors {
    (k: nat) => if UserData(raw(k)).Some? then UserData(raw(k)).value else Zeros(2048)
  }

  /** The disc, or one data track of it, as 2048-byte sectors. */
  class BlockStream {
    const drive: Drive           // sectors as the drive reads them: raw ones if a track is given
    const track: Option<Track>
    const sectors: nat
    var position: nat

    constructor (drive: Drive, sectors: nat, track: Option<Track>)
      ensures this.drive == drive && this.track == track && position == 0
      ensures this.sectors == if track.Some? then Length(track.value) else sectors
    {
      this.drive := drive;
      this.track := track;
      this.sectors := if track.Some? then Length(track.value) else sectors;
      position := 0;
    }

    /** Sector k of the stream. */
    function Shown(): Sectors {
      if track.Some? then From(Plain(drive.sector), track.value.start) else drive.sector
    }

    /** The drive reads whole sectors: raw ones of a track, else ones of 2048 bytes. */
    ghost predicate Whole() {
      if track.Some? then Sized(drive.sector, track.value.start, sectors, RAW) else
          Sized(drive.sector, 0, sectors, 2048)
    }

    /** Sector k of the stream can be shown. */
    predicate Readable(k: nat) { track.Some? ==> UserData(drive.sector(track.value.start + k)).Some? }

    method Seek(offset: int, whence: int) returns (ok: bool)
      modifies this`position
      ensures var to := if whence == 0 then offset else if whence == 1 then old(position) + offset else sectors * 2048 + offset;
        ok == (to >= 0) && position == if to >= 0 then Min(to, sectors * 2048) else old(position)
    {
      var to := if whence == 0 then offset else if whence == 1 then position + offset else sectors * 2048 + offset;
      ok := to >= 0;
      if ok {
        position := Min(to, sectors * 2048);
      }
    }

    /** b is byte q of the stream: of a sector as it is, or of the data in a raw one. */
    predicate StreamByte(q: nat, b: Byte) {
      if track.Some? then DataByte(drive.sector(track.value.start + q / 2048), q % 2048, b)
      else q % 2048 < |drive.sector(q / 2048)| && drive.sector(q / 2048)[q % 2048] == b
    }

    /** read: the bytes of the whole stream from the position on, or a failed read; no sector without user data is
        passed off. */
    method Read(n: int) returns (r: Option<seq<Byte>>)
      requires Whole() && position <= sectors * 2048
      modifies this`position, drive
      ensures |Flat(Shown(), 0, sectors)| == sectors * 2048 && old(position) <= position <= sectors * 2048
      ensures r.Some? ==> r.value == Flat(Shown(), 0, sectors)[old(position)..position]
      ensures r.Some? ==> position == old(position) + (if n < 0 || n > sectors * 2048 - old(position) then sectors * 2048 - old(position) else n)
      ensures r.Some? ==> forall k: nat {:trigger Readable(k)} :: old(position) < position && old(position) < (k + 1) * 2048 && k * 2048 < position ==> Readable(k)
      ensures r.Some? ==> forall j {:trigger r.value[j]} :: 0 <= j < |r.value| ==> StreamByte(old(position) + j, r.value[j])
      ensures r.None? ==> position == old(position)
    {
      hide Flat, BlockStream.Readable, BlockStream.Whole, BlockStream.StreamByte;
      ShownSized();
      FlatLength(Shown(), 0, sectors, 2048);
      var remaining := sectors * 2048 - position;
      var size := if n < 0 || n > remaining then remaining else n;
      if size == 0 {
        return Some([]);
      }
      var first, intra := position / 2048, position % 2048;
      var count := (intra + size + 2047) / 2048;
      Fits(position, size, sectors);
      var data := Sectors(first, count);
      if data.None? {
        return None;
      }
      Window(Shown(), sectors, first, count, intra, size);
      r := Some(data.value[intra..intra + size]);
      position := position + size;
      assert first * 2048 <= old(position) && position <= (first + count) * 2048;
      forall j {:trigger r.value[j]} | 0 <= j < |r.value| ensures StreamByte(old(position) + j, r.value[j]) {
        ShownByte(old(position) + j);
      }
    }

    /** A byte of the whole stream. */
    lemma ShownByte(q: nat)
      requires Whole() && q < sectors * 2048 && Readable(q / 2048)
      ensures |Flat(Shown(), 0, sectors)| == sectors * 2048 && StreamByte(q, Flat(Shown(), 0, sectors)[q])
    {
      hide Flat, HasData, DataByte, UserData, BlockStream.Whole, BlockStream.StreamByte, BlockStream.Readable;
      ShownSized();
      FlatLength(Shown(), 0, sectors, 2048);
      var k, j := q / 2048, q % 2048;
      FlatSector(Shown(), 0, sectors, 2048, k);
      assert Flat(Shown(), 0, sectors)[k * 2048..(k + 1) * 2048][j] == Flat(Shown(), 0, sectors)[q];
      OneByte(q);
    }

    lemma ShownAt(k: nat)
      ensures Shown()(k) == if track.Some? then Plain(drive.sector)(track.value.start + k) else drive.sector(k)
    {
      hide UserData, Plain;
    }

    lemma WholeAt(k: nat)
      requires Whole() && k < sectors && track.None?
      ensures |drive.sector(k)| == 2048
    {
    }

    lemma ReadableAt(k: nat)
      requires Readable(k) && track.Some?
      ensures UserData(drive.sector(track.value.start + k)).Some?
    {
      hide UserData;
    }

    lemma OneByte(q: nat)
      requires Whole() && q < sectors * 2048 && Readable(q / 2048)
      ensures |Shown()(q / 2048)| == 2048 && StreamByte(q, Shown()(q / 2048)[q % 2048])
    {
      hide BlockStream.Whole, BlockStream.Readable, BlockStream.Shown, Plain, UserData, DataByte, HasData;
      ShownAt(q / 2048);
      if track.Some? {
        ReadableAt(q / 2048);
        PlainByte(drive.sector, track.value.start + q / 2048, q % 2048);
      } else {
        WholeAt(q / 2048);
      }
    }

    lemma ShownSized()
      requires Whole()
      ensures Sized(Shown(), 0, sectors, 2048)
    {
      if track.Some? {
        hide UserData;
        forall k: nat {:trigger Shown()(k)} | k < sectors ensures |Shown()(k)| == 2048 {
          PlainSize(drive.sector, track.value.start + k);
        }
      }
    }

    /** A stretch of whole sectors of user data. */
    method Sectors(first: nat, count: nat) returns (r: Option<seq<Byte>>)
      requires Whole() && first + count <= sectors
      modifies drive
      ensures r.Some? ==> r.value == Flat(Shown(), first, count)
      ensures r.Some? ==> forall k: nat {:trigger Readable(k)} :: first <= k < first + count ==> Readable(k)
    {
      hide Flat, UserData, Plain, BlockStream.Whole, Sized, Frames, From;
      if track.None? {
        r := drive.Read(first, count);
        return;
      }
      var raw := drive.Read(track.value.start + first, count);
      if raw.None? {
        return None;
      }
      RawSectors(first, count);
      r := Extract(raw.value, count);
      ShownFrames(first, count);
      if r.Some? {
        forall k: nat {:trigger Readable(k)} | first <= k < first + count ensures Readable(k) {
          FrameOf(drive.sector, track.value.start + first, count, k - first);
        }
      }
    }

    lemma RawSectors(first: nat, count: nat)
      requires Whole() && first + count <= sectors && track.Some?
      ensures Sized(drive.sector, track.value.start + first, count, RAW)
      ensures |Flat(drive.sector, track.value.start + first, count)| == count * RAW
    {
      FlatLength(drive.sector, track.value.start + first, count, RAW);
    }

    /** The user data of the raw sectors are those of the stream. */
    lemma ShownFrames(first: nat, count: nat)
      requires track.Some? && Sized(drive.sector, track.value.start + first, count, RAW)
      ensures Flat(Plain(Frames(Flat(drive.sector, track.value.start + first, count), 0)), 0,
          count) == Flat(Shown(), first, count)
    {
      hide *;
      ShownIs();
      FramesFrom(drive.sector, track.value.start, first, count);
    }

    lemma ShownIs()
      requires track.Some?
      ensures Shown() == From(Plain(drive.sector), track.value.start)
    {
    }
  }

  lemma FrameShown(f: Sectors, start: nat, first: nat, count: nat, k: nat)
    requires Sized(f, start + first, count, RAW) && k < count
    ensures Plain(Frames(Flat(f, start + first, count), 0))(k) == From(Plain(f), start)(first + k)
  {
    hide Flat, Plain, Sized, Frames;
    FrameOf(f, start + first, count, k);
    SamePlain(Frames(Flat(f, start + first, count), 0), f, k, start + first + k);
  }

  lemma FramesFrom(f: Sectors, start: nat, first: nat, count: nat)
    requires Sized(f, start + first, count, RAW)
    ensures Flat(Plain(Frames(Flat(f, start + first, count), 0)), 0, count) == Flat(From(Plain(f), start), first, count)
  {
    hide Flat, Plain, Sized, Frames, From;
    var g := Plain(Frames(Flat(f, start + first, count), 0));
    forall k: nat {:trigger g(k)} | 0 <= k < 0 + count ensures g(k) == From(Plain(f), start)(first + (k - 0)) {
      FrameShown(f, start, first, count, k);
    }
    FlatSame(g, From(Plain(f), start), 0, first, count);
  }

  /** The user data of the raw sectors in a string of bytes, one by one; none if one of them has none. */
  method Extract(raw: seq<Byte>, count: nat) returns (out: Option<seq<Byte>>)
    requires |raw| == count * RAW
    ensures out.Some? <==> forall k: nat {:trigger Frames(raw, 0)(k)} :: k < count ==> UserData(Frames(raw, 0)(k)).Some?
    ensures out.Some? ==> out.value == Flat(Plain(Frames(raw, 0)), 0, count)
  {
    hide UserData, Frames;
    var done: seq<Byte> := [];
    var k := 0;
    while k < count
      invariant k <= count && done == Flat(Plain(Frames(raw, 0)), 0, k)
      invariant forall j: nat {:trigger Frames(raw, 0)(j)} :: j < k ==> UserData(Frames(raw, 0)(j)).Some?
    {
      FrameSlice(raw, count, k);
      var data := UserData(raw[k * RAW..(k + 1) * RAW]);
      if data.None? {
        return None;
      }
      done := done + data.value;
      k := k + 1;
    }
    out := Some(done);
  }

  lemma FrameSlice(raw: seq<Byte>, count: nat, k: nat)
    requires |raw| == count * RAW && k < count
    ensures (k + 1) * RAW <= |raw| && Frames(raw, 0)(k) == raw[k * RAW..(k + 1) * RAW]
  {
  }

  /** Frame k of some raw sectors is sector k of them. */
  lemma FrameOf(f: Sectors, from: nat, count: nat, k: nat)
    requires Sized(f, from, count, RAW) && k < count
    ensures Frames(Flat(f, from, count), 0)(k) == f(from + k)
  {
    hide Flat;
    FlatLength(f, from, count, RAW);
    FlatSector(f, from, count, RAW, k);
    FrameSlice(Flat(f, from, count), count, k);
  }

  lemma Fits(position: nat, size: nat, sectors: nat)
    requires 0 < size && position + size <= sectors * 2048
    ensures position / 2048 + (position % 2048 + size + 2047) / 2048 <= sectors
    ensures position % 2048 + size <= (position % 2048 + size + 2047) / 2048 * 2048
  {
  }

  /** Bytes of some sectors are those bytes of all of them. */
  lemma Window(f: Sectors, n: nat, first: nat, count: nat, intra: nat, size: nat)
    requires Sized(f, 0, n, 2048) && first + count <= n && intra + size <= count * 2048
    ensures |Flat(f, 0, n)| == n * 2048 && |Flat(f, first, count)| == count * 2048 &&
        first * 2048 + intra + size <= n * 2048
    ensures Flat(f, first, count)[intra..intra + size] == Flat(f, 0,
        n)[first * 2048 + intra..first * 2048 + intra + size]
  {
    hide Flat;
    FlatLength(f, 0, n, 2048);
    FlatLength(f, 0, first, 2048);
    FlatLength(f, first, count, 2048);
    hide Sized;
    FlatAppend(f, 0, first, count);
    FlatAppend(f, 0, first + count, n - first - count);
    Middle(Flat(f, 0, first), Flat(f, first, count), Flat(f, first + count, n - first - count), intra, size);
  }

  lemma Middle(a: seq<Byte>, b: seq<Byte>, c: seq<Byte>, i: nat, n: nat)
    requires i + n <= |b|
    ensures (a + b + c)[|a| + i..|a| + i + n] == b[i..i + n]
  {
  }

  /** The stream of a data track is the ISO made from the archive of the disc. */
  lemma StreamIsIso(disc: Sectors, tracks: seq<Track>, image: seq<Byte>, t: Track, iso: seq<Byte>)
    requires Contiguous(tracks) && tracks != [] && t in tracks
    requires image == Archive(disc, tracks)
    requires Sized(disc, tracks[0].start, Offset(tracks, tracks[|tracks| - 1].end + 1), RAW)
    requires AllCooked(image, Offset(tracks, t.start) * RAW, Length(t))
    requires iso == Flat(Cooked(Frames(image, Offset(tracks, t.start) * RAW)), 0, Length(t))
    ensures iso == Flat(From(Plain(disc), t.start), 0, Length(t))
    ensures forall q {:trigger iso[q]} :: 0 <= q < |iso| ==> DataByte(disc(t.start + q / 2048), q % 2048, iso[q])
  {
    hide DataByte, HasData;
    hide Flat, Archive, Contiguous, Sized, Offset, Length, UserData, Frames;
    var f, g := Cooked(Frames(image, Offset(tracks, t.start) * RAW)), From(Plain(disc), t.start);
    forall k: nat {:trigger f(k)} | 0 <= k < 0 + Length(t) ensures f(k) == g(0 + (k - 0)) {
      ArchiveFrame(disc, tracks, image, t, k);
    }
    FlatSame(f, g, 0, 0, Length(t));
    forall q {:trigger iso[q]} | 0 <= q < |iso| ensures DataByte(disc(t.start + q / 2048), q % 2048, iso[q]) {
      ByteOfIso(disc, tracks, image, t, iso, q);
    }
  }

  lemma ByteOfIso(disc: Sectors, tracks: seq<Track>, image: seq<Byte>, t: Track, iso: seq<Byte>, q: nat)
    requires Contiguous(tracks) && tracks != [] && t in tracks
    requires image == Archive(disc, tracks)
    requires Sized(disc, tracks[0].start, Offset(tracks, tracks[|tracks| - 1].end + 1), RAW)
    requires AllCooked(image, Offset(tracks, t.start) * RAW, Length(t))
    requires iso == Flat(Cooked(Frames(image, Offset(tracks, t.start) * RAW)), 0, Length(t)) && q < |iso|
    ensures DataByte(disc(t.start + q / 2048), q % 2048, iso[q])
  {
    hide *;
    IsoLength(tracks, image, t, iso);
    var k, j := q / 2048, q % 2048;
    IsoSector(disc, tracks, image, t, iso, k);
    assert iso[k * 2048 + j] == iso[q];
  }

  lemma IsoLength(tracks: seq<Track>, image: seq<Byte>, t: Track, iso: seq<Byte>)
    requires AllCooked(image, Offset(tracks, t.start) * RAW, Length(t))
    requires iso == Flat(Cooked(Frames(image, Offset(tracks, t.start) * RAW)), 0, Length(t))
    ensures |iso| == Length(t) * 2048
  {
    CookedSized(image, Offset(tracks, t.start) * RAW, Length(t));
    FlatLength(Cooked(Frames(image, Offset(tracks, t.start) * RAW)), 0, Length(t), 2048);
  }

  lemma SamePlain(f: Sectors, g: Sectors, a: nat, b: nat)
    requires f(a) == g(b)
    ensures Plain(f)(a) == Plain(g)(b)
  {
  }

  lemma PlainByte(f: Sectors, k: nat, j: nat)
    requires UserData(f(k)).Some? && j < 2048
    ensures |Plain(f)(k)| == 2048 && DataByte(f(k), j, Plain(f)(k)[j])
  {
    hide UserData, HasData, DataByte;
    var data := UserData(f(k));
    UserDataBytes(f(k));
    assert Plain(f)(k) == data.value;
  }

  lemma PlainSize(f: Sectors, k: nat)
    ensures |Plain(f)(k)| == 2048
  {
    hide UserData;
    var data := UserData(f(k));
    assert Plain(f)(k) == if data.Some? then data.value else Zeros(2048);
  }
}
