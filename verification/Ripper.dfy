/** Archiving discs with a drive that may fail at any time. */
module Ripper {
  import opened Bytes
  import opened CdSector

  datatype Outcome =
    | Ripped(image: seq<Byte>, damaged: seq<nat>, retries: nat)
    | ReadError(lba: nat, attempts: nat)
    | Refused

  /** The disc with the sectors given up on zeroed. */
  function Patched(disc: Sectors, damaged: seq<nat>): Sectors {
    (k: nat) => if k in damaged then Zeros(2048) else disc(k)
  }

  ghost predicate Ascending(s: seq<nat>, below: nat) {
    (forall i, j :: 0 <= i < j < |s| ==> s[i] < s[j]) && forall i {:trigger s[i]} :: 0 <= i < |s| ==> s[i] < below
  }

  /** What has been read of the disc up to lba. */
  ghost predicate Copied(disc: Sectors, out: seq<Byte>, damaged: seq<nat>, lba: nat) {
    out == Flat(Patched(disc, damaged), 0, lba) && Ascending(damaged, lba)
  }

  lemma CopyStart(disc: Sectors)
    ensures Copied(disc, [], [], 0)
  {
  }

  lemma CopyGood(disc: Sectors, out: seq<Byte>, damaged: seq<nat>, lba: nat, n: nat)
    requires Copied(disc, out, damaged, lba)
    ensures Copied(disc, out + Flat(disc, lba, n), damaged, lba + n)
  {
    var p := Patched(disc, damaged);
    FlatAppend(p, 0, lba, n);
    forall k: nat | lba <= k < lba + n ensures p(k) == disc(k) {
      assert k !in damaged;
    }
    FlatSame(p, disc, lba, lba, n);
  }

  lemma CopyDamaged(disc: Sectors, out: seq<Byte>, damaged: seq<nat>, lba: nat)
    requires Copied(disc, out, damaged, lba)
    ensures Copied(disc, out + Zeros(2048), damaged + [lba], lba + 1)
  {
    var p, q := Patched(disc, damaged), Patched(disc, damaged + [lba]);
    forall k: nat | k < lba ensures q(k) == p(k) {
    }
    FlatSame(q, p, 0, 0, lba);
    assert q(lba) == Zeros(2048);
  }

  /** One stretch of at most desired sectors: halved on failure, a single sector tried again, then given up on. */
  method ReadStretch(drive: Drive, lba: nat, desired: nat, maxRetries: nat) returns (data: Option<seq<Byte>>,
      n: nat, attempts: nat)
    requires desired > 0
    modifies drive
    ensures 0 < n <= desired && attempts == drive.failures - old(drive.failures)
    ensures data.Some? ==> data.value == Flat(drive.sector, lba, n)
    ensures data.None? ==> n == 1 && attempts > maxRetries
  {
    n := desired;
    attempts := 0;
    while true
      invariant 0 < n <= desired && attempts == drive.failures - old(drive.failures)
      decreases n, Max(0, maxRetries + 1 - attempts)
    {
      data := drive.Read(lba, n);
      if data.Some? {
        return;
      }
      attempts := attempts + 1;
      if n > 1 {
        n := Max(1, n / 2);
        continue;
      }
      if attempts <= maxRetries {
        continue;
      }
      return;
    }
  }

  /** rip_dvd_iso: whatever fails, it ends; every sector is the disc's, but for those listed, which are zeros. */
  method RipDvd(drive: Drive, total: nat, chunk: nat, maxRetries: nat, continueDamaged: bool) returns (r: Outcome)
    requires chunk > 0
    modifies drive
    ensures r.Ripped? || r.ReadError?
    ensures r.Ripped? ==> Copied(drive.sector, r.image, r.damaged, total)
    ensures r.Ripped? ==> r.retries == drive.failures - old(drive.failures) >= |r.damaged| * (maxRetries + 1)
    ensures r.Ripped? && !continueDamaged ==> r.damaged == [] && r.image == Flat(drive.sector, 0, total)
    ensures r.ReadError? ==> !continueDamaged && r.lba < total && r.attempts > maxRetries
  {
    var out: seq<Byte> := [];
    var damaged: seq<nat> := [];
    var retries, lba := 0, 0;
    hide Copied;
    CopyStart(drive.sector);
    while lba < total
      invariant lba <= total && Copied(drive.sector, out, damaged, lba)
      invariant retries == drive.failures - old(drive.failures) >= |damaged| * (maxRetries + 1)
      invariant !continueDamaged ==> damaged == []
    {
      var data, n, attempts := ReadStretch(drive, lba, Min(chunk, total - lba), maxRetries);
      retries := retries + attempts;
      if data.Some? {
        CopyGood(drive.sector, out, damaged, lba, n);
        out := out + data.value;
      } else {
        if !continueDamaged {
          return ReadError(lba, attempts);
        }
        CopyDamaged(drive.sector, out, damaged, lba);
        assert (|damaged| + 1) * (maxRetries + 1) == |damaged| * (maxRetries + 1) + (maxRetries + 1);
        out := out + Zeros(2048);
        damaged := damaged + [lba];
      }
      lba := lba + n;
    }
    Undamaged(drive.sector, out, damaged, total);
    r := Ripped(out, damaged, retries);
  }

  lemma Undamaged(disc: Sectors, out: seq<Byte>, damaged: seq<nat>, total: nat)
    requires Copied(disc, out, damaged, total)
    ensures damaged == [] ==> out == Flat(disc, 0, total)
  {
    if damaged == [] {
      FlatSame(Patched(disc, damaged), disc, 0, 0, total);
    }
  }

  /** Sector by sector: zeros exactly where the list says so. */
  lemma DvdSector(disc: Sectors, image: seq<Byte>, damaged: seq<nat>, total: nat, k: nat)
    requires Copied(disc, image, damaged, total) && k < total && Sized(disc, 0, total, 2048)
    ensures (k + 1) * 2048 <= |image| == total * 2048
    ensures image[k * 2048..(k + 1) * 2048] == if k in damaged then Zeros(2048) else disc(k)
  {
    FlatSector(Patched(disc, damaged), 0, total, 2048, k);
  }

  // ---- CDs ----

  datatype Kind = Mode1Track | Mode2Track | Audio

  datatype Track = Track(number: nat, kind: Kind, start: nat, end: nat)

  /** How many sectors a track has, and how many frames lie before it in the archive. */
  function Length(t: Track): nat { if t.start <= t.end then t.end - t.start + 1 else 0 }

  function Offset(tracks: seq<Track>, lba: nat): nat {
    if tracks != [] && tracks[0].start <= lba then lba - tracks[0].start else 0
  }

  /** Tracks that follow one another, none empty. */
  ghost predicate Contiguous(tracks: seq<Track>) {
    && (forall i {:trigger tracks[i]} :: 0 <= i < |tracks| ==> tracks[i].start <= tracks[i].end)
    && forall i {:trigger tracks[i].end} :: 0 <= i < |tracks| - 1 ==> tracks[i + 1].start == tracks[i].end + 1
  }

  /** One track: stretches as above, but a sector that cannot be read ends it. */
  method RipTrack(drive: Drive, track: Track, chunk: nat, maxRetries: nat) returns (data: Option<seq<Byte>>,
      lba: nat, attempts: nat, retries: nat)
    requires chunk > 0 && track.start <= track.end
    modifies drive
    ensures data.Some? ==> data.value == Flat(drive.sector, track.start, Length(track))
    ensures data.None? ==> track.start <= lba <= track.end && attempts > maxRetries
    ensures retries == drive.failures - old(drive.failures)
  {
    var out: seq<Byte> := [];
    lba := track.start;
    attempts := 0;
    retries := 0;
    while lba <= track.end
      invariant track.start <= lba <= track.end + 1 && out == Flat(drive.sector, track.start, lba - track.start)
      invariant retries == drive.failures - old(drive.failures)
    {
      var part, n;
      part, n, attempts := ReadStretch(drive, lba, Min(chunk, track.end - lba + 1), maxRetries);
      retries := retries + attempts;
      if part.None? {
        return None, lba, attempts, retries;
      }
      FlatAppend(drive.sector, track.start, lba - track.start, n);
      out := out + part.value;
      lba := lba + n;
    }
    data := Some(out);
  }

  /** A range is never backwards: a track is refused otherwise. */
  predicate Ranges(tracks: seq<Track>) {
    forall i {:trigger tracks[i]} :: 0 <= i < |tracks| ==> tracks[i].start <= tracks[i].end
  }

  /** The raw sectors of the tracks one after the other, whatever lies between them on the disc. */
  ghost function Archive(disc: Sectors, tracks: seq<Track>): seq<Byte> {
    if tracks == [] then []
    else
      var n := |tracks| - 1;
      Archive(disc, tracks[..n]) + Flat(disc, tracks[n].start, Length(tracks[n]))
  }

  lemma ArchiveMore(disc: Sectors, tracks: seq<Track>, i: nat)
    requires i < |tracks|
    ensures Archive(disc, tracks[..i + 1]) == Archive(disc, tracks[..i]) + Flat(disc, tracks[i].start,
        Length(tracks[i]))
  {
    assert tracks[..i + 1][..i] == tracks[..i];
  }

  /** A lba on one of the tracks. */
  ghost predicate OnTrack(tracks: seq<Track>, lba: nat) {
    exists i {:trigger tracks[i]} :: 0 <= i < |tracks| && tracks[i].start <= lba <= tracks[i].end
  }

  /** The loop over the tracks. */
  method RipTracks(drive: Drive, tracks: seq<Track>, chunk: nat, maxRetries: nat) returns (data: Option<seq<Byte>>,
      lba: nat, attempts: nat, retries: nat)
    requires chunk > 0 && Ranges(tracks)
    modifies drive
    ensures data.Some? ==> data.value == Archive(drive.sector, tracks)
    ensures data.None? ==> OnTrack(tracks, lba) && attempts > maxRetries
    ensures retries == drive.failures - old(drive.failures)
  {
    hide Flat;
    var out: seq<Byte> := [];
    var i := 0;
    retries := 0;
    while i < |tracks|
      invariant i <= |tracks| && out == Archive(drive.sector, tracks[..i])
      invariant retries == drive.failures - old(drive.failures)
    {
      var more;
      data, lba, attempts, more := RipTrack(drive, tracks[i], chunk, maxRetries);
      retries := retries + more;
      if data.None? {
        return;
      }
      ArchiveMore(drive.sector, tracks, i);
      out := out + data.value;
      i := i + 1;
    }
    assert tracks[..|tracks|] == tracks;
    data, lba, attempts := Some(out), 0, 0;
  }

  lemma FrontContiguous(tracks: seq<Track>)
    requires Contiguous(tracks) && |tracks| > 1
    ensures Contiguous(tracks[..|tracks| - 1])
  {
    var n := |tracks| - 1;
    var front := tracks[..n];
    assert forall i {:trigger front[i]} :: 0 <= i < n ==> front[i] == tracks[i];
  }

  /** On a disc whose tracks follow one another the archive is one stretch, from the first track to the last. */
  lemma {:induction false} ArchiveContiguous(disc: Sectors, tracks: seq<Track>)
    requires Contiguous(tracks) && tracks != []
    ensures tracks[0].start <= tracks[|tracks| - 1].end
    ensures Archive(disc, tracks) == Flat(disc, tracks[0].start, Offset(tracks, tracks[|tracks| - 1].end + 1))
  {
    hide Flat, Contiguous;
    var n := |tracks| - 1;
    Ordered(tracks, n);
    if n == 0 {
      assert Archive(disc, tracks[..0]) == [];
    } else {
      var front := tracks[..n];
      FrontContiguous(tracks);
      ArchiveContiguous(disc, front);
      assert front[0] == tracks[0] && front[n - 1] == tracks[n - 1];
      var first, cut := tracks[0].start, tracks[n].start;
      Ordered(tracks, n - 1);
      assert Archive(disc, front) == Flat(disc, first, cut - first);
      FlatAppend(disc, first, cut - first, Length(tracks[n]));
    }
  }

  /** rip_cd_bin_cue: the raw sectors of the tracks, or the sector that could not be read. */
  method RipCd(drive: Drive, tracks: seq<Track>, chunk: nat, maxRetries: nat) returns (r: Outcome)
    requires chunk > 0 && Ranges(tracks)
    modifies drive
    ensures r.Refused? <==> tracks == []
    ensures r.Ripped? ==> r.image == Archive(drive.sector, tracks)
    ensures r.Ripped? ==> r.retries == drive.failures - old(drive.failures) && r.damaged == []
    ensures r.ReadError? ==> OnTrack(tracks, r.lba) && r.attempts > maxRetries
  {
    hide *;
    if tracks == [] {
      return Refused;
    }
    var data, lba, attempts, retries := RipTracks(drive, tracks, chunk, maxRetries);
    r := if data.None? then ReadError(lba, attempts) else Ripped(data.value, [], retries);
  }

  /** Every track lies between the first and the last sector. */
  lemma Ordered(tracks: seq<Track>, i: nat)
    requires Contiguous(tracks) && i < |tracks|
    ensures tracks[0].start <= tracks[i].start <= tracks[i].end <= tracks[|tracks| - 1].end
    ensures i > 0 ==> tracks[i].start == tracks[i - 1].end + 1
  {
    FromFirst(tracks, i);
    ToLast(tracks, i);
    assert i > 0 ==> tracks[(i - 1) + 1].start == tracks[i - 1].end + 1;
  }

  lemma {:induction false} FromFirst(tracks: seq<Track>, i: nat)
    requires Contiguous(tracks) && i < |tracks|
    ensures tracks[0].start <= tracks[i].start
  {
    if i > 0 {
      FromFirst(tracks, i - 1);
      assert tracks[(i - 1) + 1].start == tracks[i - 1].end + 1;
    }
  }

  lemma {:induction false} ToLast(tracks: seq<Track>, i: nat)
    requires Contiguous(tracks) && i < |tracks|
    ensures tracks[i].end <= tracks[|tracks| - 1].end
    decreases |tracks| - i
  {
    if i < |tracks| - 1 {
      ToLast(tracks, i + 1);
      assert tracks[i + 1].start == tracks[i].end + 1;
    }
  }

  /** The user data of a numbering of raw sectors. */
  function Cooked(raw: Sectors): Sectors {
    (k: nat) => if UserData(raw(k)).Some? then UserData(raw(k)).value else []
  }

  datatype Converted = Iso(image: seq<Byte>) | NotData | BadSeek | Ended(index: nat) | BadSector(index: nat)

  function FindTrack(tracks: seq<Track>, number: nat): (r: Option<Track>)
    ensures r.Some? ==> r.value in tracks && r.value.number == number
    ensures r.None? ==> forall t :: t in tracks ==> t.number != number
  {
    if tracks == [] then None
    else if tracks[0].number == number then Some(tracks[0])
    else FindTrack(tracks[1..], number)
  }

  /** The first count frames are all there and all have user data. */
  ghost predicate AllCooked(d: seq<Byte>, base: nat, count: nat) {
    && (count > 0 ==> base + count * RAW <= |d|)
    && forall k: nat {:trigger Frames(d, base)(k)} :: k < count ==> UserData(Frames(d, base)(k)).Some?
  }

  lemma CookedMore(d: seq<Byte>, base: nat, n: nat)
    requires AllCooked(d, base, n) && |Frames(d, base)(n)| == RAW && UserData(Frames(d, base)(n)).Some?
    ensures AllCooked(d, base, n + 1)
    ensures Flat(Cooked(Frames(d, base)), 0, n + 1) == Flat(Cooked(Frames(d, base)), 0, n) + UserData(Frames(d,
        base)(n)).value
  {
    hide UserData;
  }

  /** The loop over the frames. */
  method ConvertFrames(bin: File, base: nat, count: nat) returns (r: Converted)
    requires bin.pos == base
    modifies bin`pos
    ensures r.Iso? ==> AllCooked(bin.data, base, count) && r.image == Flat(Cooked(Frames(bin.data, base)), 0, count)
    ensures r.BadSector? ==> r.index < count && UserData(Frames(bin.data, base)(r.index)).None?
    ensures r.Ended? ==> r.index < count && |Frames(bin.data, base)(r.index)| < RAW
    ensures !r.NotData? && !r.BadSeek?
  {
    hide UserData, Cooked, Flat, AllCooked, ReadAt;
    ghost var f := Frames(bin.data, base);
    NoFrames(bin.data, base);
    var out: seq<Byte> := [];
    var index := 0;
    while index < count
      invariant index <= count && bin.pos == base + index * RAW
      invariant AllCooked(bin.data, base, index) && out == Flat(Cooked(f), 0, index)
    {
      ReadShort(bin.data, bin.pos);
      var raw := bin.Read(RAW);
      assert raw == f(index);
      if |raw| != RAW {
        return Ended(index);
      }
      var data := UserData(raw);
      if data.None? {
        return BadSector(index);
      }
      CookedMore(bin.data, base, index);
      out := out + data.value;
      index := index + 1;
    }
    r := Iso(out);
  }

  lemma NoFrames(d: seq<Byte>, base: nat)
    ensures AllCooked(d, base, 0) && Flat(Cooked(Frames(d, base)), 0, 0) == []
  {
  }

  lemma ReadShort(d: seq<Byte>, p: nat)
    ensures |ReadAt(d, p, RAW)| <= RAW
  {
  }

  /** convert_cd_data_track_to_iso: the user data of the track's frames in the archived BIN. */
  method Convert(bin: File, tracks: seq<Track>, number: nat) returns (r: Converted)
    modifies bin`pos
    ensures r.NotData? <==> FindTrack(tracks, number).None? || FindTrack(tracks, number).value.kind.Audio?
    ensures r.BadSeek? <==> !r.NotData? && FindTrack(tracks, number).value.start < tracks[0].start
    ensures r.Iso? ==> var t := FindTrack(tracks, number).value; var base := Offset(tracks, t.start) * RAW;
      AllCooked(bin.data, base, Length(t)) && r.image == Flat(Cooked(Frames(bin.data, base)), 0, Length(t))
    ensures r.Iso? ==> var t := FindTrack(tracks, number).value;
      IsIso(bin.data, 2352 * (t.start - tracks[0].start), r.image, if t.start <= t.end then t.end - t.start + 1 else 0)
    ensures r.BadSector? || r.Ended? ==> var t := FindTrack(tracks, number).value; var f := Frames(bin.data, Offset(tracks, t.start) * RAW);
      r.index < Length(t) && if r.BadSector? then UserData(f(r.index)).None? else |f(r.index)| < RAW
    ensures r.BadSector? || r.Ended? ==> var t := FindTrack(tracks, number).value;
      var from := 2352 * (t.start - tracks[0].start + r.index);
      if r.BadSector? then !HasData(ReadAt(bin.data, from, 2352)) else from + 2352 > |bin.data|
  {
    hide FindTrack, AllCooked, Flat;
    var found := FindTrack(tracks, number);
    if found.None? || found.value.kind.Audio? {
      return NotData;
    }
    var t := found.value;
    if t.start < tracks[0].start {
      return BadSeek;
    }
    var base := Offset(tracks, t.start) * RAW;
    bin.Seek(base);
    r := ConvertFrames(bin, base, Length(t));
    if r.Iso? {
      CookedBytes(bin.data, base, Length(t), r.image);
    } else if r.BadSector? {
      UserDataBytes(Frames(bin.data, base)(r.index));
    }
  }

  /** A raw sector is in its place in an archive. */
  predicate LiesAt(image: seq<Byte>, k: int, sector: seq<Byte>) {
    0 <= 2352 * k && 2352 * k + 2352 <= |image| && image[2352 * k..2352 * k + 2352] == sector
  }

  lemma FlatFrame(disc: Sectors, tracks: seq<Track>, image: seq<Byte>, t: Track, k: nat)
    requires Contiguous(tracks) && tracks != [] && t in tracks && k < Length(t)
    requires image == Flat(disc, tracks[0].start, Offset(tracks, tracks[|tracks| - 1].end + 1))
    requires Sized(disc, tracks[0].start, Offset(tracks, tracks[|tracks| - 1].end + 1), RAW)
    ensures Frames(image, Offset(tracks, t.start) * RAW)(k) == disc(t.start + k)
    ensures LiesAt(image, t.start - tracks[0].start + k, disc(t.start + k))
  {
    hide Archive, Flat, Sized;
    var i :| 0 <= i < |tracks| && tracks[i] == t;
    Ordered(tracks, i);
    var n, j := Offset(tracks, tracks[|tracks| - 1].end + 1), Offset(tracks, t.start) + k;
    FlatSector(disc, tracks[0].start, n, RAW, j);
    FrameIn(image, Offset(tracks, t.start), k, n);
    assert tracks[0].start + j == t.start + k;
  }

  /** Frame j of the archive of a contiguous disc is disc sector first + j. */
  lemma ArchiveFrame(disc: Sectors, tracks: seq<Track>, image: seq<Byte>, t: Track, k: nat)
    requires Contiguous(tracks) && tracks != [] && t in tracks && k < Length(t)
    requires image == Archive(disc, tracks)
    requires Sized(disc, tracks[0].start, Offset(tracks, tracks[|tracks| - 1].end + 1), RAW)
    ensures Frames(image, Offset(tracks, t.start) * RAW)(k) == disc(t.start + k)
    ensures LiesAt(image, t.start - tracks[0].start + k, disc(t.start + k))
  {
    hide *;
    ArchiveContiguous(disc, tracks);
    FlatFrame(disc, tracks, image, t, k);
  }

  lemma FrameIn(image: seq<Byte>, o: nat, k: nat, n: nat)
    requires o + k < n && |image| == n * RAW
    ensures (o + k + 1) * RAW <= |image| && Frames(image, o * RAW)(k) == image[(o + k) * RAW..(o + k + 1) * RAW]
  {
  }

  /** From disc to ISO: sector k of the converted track is the user data of the disc sector k after its start. */
  lemma IsoSector(disc: Sectors, tracks: seq<Track>, image: seq<Byte>, t: Track, iso: seq<Byte>, k: nat)
    requires Contiguous(tracks) && tracks != [] && t in tracks && k < Length(t)
    requires image == Archive(disc, tracks)
    requires Sized(disc, tracks[0].start, Offset(tracks, tracks[|tracks| - 1].end + 1), RAW)
    requires AllCooked(image, Offset(tracks, t.start) * RAW, Length(t))
    requires iso == Flat(Cooked(Frames(image, Offset(tracks, t.start) * RAW)), 0, Length(t))
    ensures (k + 1) * 2048 <= |iso| == Length(t) * 2048
    ensures UserData(disc(t.start + k)) == Some(iso[k * 2048..(k + 1) * 2048])
    ensures forall j {:trigger iso[k * 2048 + j]} :: 0 <= j < 2048 ==> DataByte(disc(t.start + k), j, iso[k * 2048 + j])
  {
    hide Archive, Flat, Contiguous, Sized, Frames, Offset, AllCooked, UserData, HasData, DataByte;
    var f := Frames(image, Offset(tracks, t.start) * RAW);
    CookedSized(image, Offset(tracks, t.start) * RAW, Length(t));
    FlatSector(Cooked(f), 0, Length(t), 2048, k);
    ArchiveFrame(disc, tracks, image, t, k);
    CookedFrame(image, Offset(tracks, t.start) * RAW, Length(t), k);
    var data := iso[k * 2048..(k + 1) * 2048];
    UserDataBytes(disc(t.start + k));
    forall j {:trigger iso[k * 2048 + j]} | 0 <= j < 2048 ensures DataByte(disc(t.start + k), j, iso[k * 2048 + j]) {
      assert data[j] == iso[k * 2048 + j];
    }
  }

  lemma CookedFrame(d: seq<Byte>, base: nat, count: nat, k: nat)
    requires AllCooked(d, base, count) && k < count
    ensures UserData(Frames(d, base)(k)).Some?
    ensures Cooked(Frames(d, base))(k) == UserData(Frames(d, base)(k)).value
  {
  }

  /** Byte j of sector k of an image, against the raw sectors that lie in d from base on. */
  ghost predicate IsoByte(d: seq<Byte>, base: nat, image: seq<Byte>, k: nat, j: nat) {
    && base + 2352 * k + 2352 <= |d| && 2048 * k + j < |image|
    && DataByte(d[base + 2352 * k..base + 2352 * k + 2352], j, image[2048 * k + j])
  }

  /** The whole of it. */
  ghost predicate IsIso(d: seq<Byte>, base: nat, image: seq<Byte>, n: nat) {
    |image| == 2048 * n && forall k: nat, j: nat {:trigger IsoByte(d, base, image, k, j)} ::
      k < n && j < 2048 ==> IsoByte(d, base, image, k, j)
  }

  lemma CookedBytes(d: seq<Byte>, base: nat, n: nat, image: seq<Byte>)
    requires AllCooked(d, base, n) && image == Flat(Cooked(Frames(d, base)), 0, n)
    ensures IsIso(d, base, image, n)
  {
    hide Flat, UserData, HasData, DataByte, Sized, AllCooked;
    CookedSized(d, base, n);
    FlatLength(Cooked(Frames(d, base)), 0, n, 2048);
    forall k: nat, j: nat {:trigger IsoByte(d, base, image, k, j)} | k < n && j < 2048
      ensures IsoByte(d, base, image, k, j)
    {
      FlatSector(Cooked(Frames(d, base)), 0, n, 2048, k);
      CookedFrame(d, base, n, k);
      FrameBytes(d, base, n, k);
      UserDataBytes(Frames(d, base)(k));
      assert image[k * 2048..(k + 1) * 2048][j] == image[2048 * k + j];
    }
  }

  lemma FrameBytes(d: seq<Byte>, base: nat, n: nat, k: nat)
    requires AllCooked(d, base, n) && k < n
    ensures base + 2352 * k + 2352 <= |d| && Frames(d, base)(k) == d[base + 2352 * k..base + 2352 * k + 2352]
  {
    hide UserData;
    Mono(k + 1, n, RAW);
  }

  lemma CookedSized(d: seq<Byte>, base: nat, count: nat)
    requires AllCooked(d, base, count)
    ensures Sized(Cooked(Frames(d, base)), 0, count, 2048)
  {
    forall k: nat {:trigger Cooked(Frames(d, base))(k)} | k < count ensures |Cooked(Frames(d, base))(k)| == 2048 {
      assert UserData(Frames(d, base)(k)).Some?;
    }
  }

  /** The raw sectors of a file from a byte on. */
  function Frames(d: seq<Byte>, base: nat): Sectors {
    (k: nat) => ReadAt(d, base + k * RAW, RAW)
  }
}
