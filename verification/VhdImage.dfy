/** A dynamic or differencing VHD opened as a seekable disk. */
module VhdImage {
  import opened Bytes
  import opened BlockBitmaps
  import opened VhdFooter
  import opened VhdLayers
  import opened VhdSteps
  import opened VhdBat
  import opened VhdReads
  import opened VhdWrites
  import opened VhdPlaces
  import opened VhdMerge
  import opened FileMove
  import opened VhdExpand

  /** What merge comes to: no parent, a parent that does not open for a block, or all copied. */
  datatype Outcome = NoParent | Unopened(block: nat) | MergedAll(sectors: nat, blocks: nat)

  class Image {
    const stream: File
    const bat: Bat
    const parent: Image?
    const g: Geo
    var footer: seq<Byte>
    const footerCopy: seq<Byte>
    ghost const start: nat
    ghost const upImages: set<Image>   // the images this one descends from, their files and tables
    ghost const upFiles: set<File>
    ghost const upBats: set<Bat>
    var pos: nat

    ghost function Top(): Layer
      reads stream`data
    {
      Layer(stream.data, g, start)
    }

    /** The line of images, none of which shares a file or a table with another. */
    ghost predicate Linked()
      decreases upImages
    {
      && bat.stream == stream && bat.offset == g.table && bat.size == g.entries
      && stream !in upFiles && bat !in upBats && this !in upImages
      && (parent == null ==> upImages == {} && upFiles == {} && upBats == {})
      && (parent != null ==>
            && parent in upImages && parent.upImages < upImages && upImages == parent.upImages + {parent}
            && upFiles == parent.upFiles + {parent.stream} && upBats == parent.upBats + {parent.bat}
            && parent.Linked())
    }

    /** The disk under this image. */
    ghost function Under(): Disk
      requires Linked()
      reads upFiles`data
      decreases upImages, 0
    {
      if parent == null then Nothing else parent.Line()
    }

    ghost function Line(): (k: Disk)
      requires Linked()
      reads stream`data, upFiles`data
      ensures k == Over(Top(), Under())
      decreases upImages, 1
    {
      Over(Top(), Under())
    }

    /** Table memo and footer in memory agree with the file, here and up the line. */
    ghost predicate Memo()
      requires Linked()
      reads this`footer, upImages`footer, bat`decoded, upBats`decoded, stream`data, upFiles`data
      decreases upImages, 1
    {
      && bat.Agrees() && FooterIs(stream.data, footer, footerCopy) && UpMemo()
    }

    ghost predicate UpMemo()
      requires Linked()
      reads upImages`footer, upBats`decoded, upFiles`data
      decreases upImages, 0
    {
      parent != null ==> parent.Memo()
    }

    ghost predicate Valid()
      reads this`footer, upImages`footer, bat`decoded, upBats`decoded, stream`data, upFiles`data
    {
      Linked() && Line().Valid() && Memo()
    }

    /**
     * Opens a laid-out container over its parent: geometry from the headers, the table past its self-test. The footer
     * has to be the same as its copy.
     */
    constructor (stream: File, parent: Image?, ghost start: nat)
      requires parent != null ==> parent.Valid() && stream != parent.stream && stream !in parent.upFiles
      requires Over(Layer(stream.data, GeoIn(stream.data), start), LineOf(parent)).Valid() && Twins(stream.data)
      modifies stream`pos
      ensures Valid() && this.stream == stream && this.parent == parent && g == GeoIn(stream.data) &&
          this.start == start
      ensures g == Geo(SizeIn(stream.data), BlockIn(stream.data), TableIn(stream.data), EntriesIn(stream.data))
      ensures bat.isvalid >= 0 && pos == 0 && footer == footerCopy == Lead(stream.data) && fresh(bat)
    {
      hide Image.Valid, Image.Memo, Image.UpMemo, Image.Linked, Image.Line, Image.Under, LineOf, Disk.Valid, Verdict;
      hide BE32, BE64, Seen, SizeIn, BlockIn, TableIn, EntriesIn;
      OpenLine(parent);
      ghost var a := Layer(stream.data, GeoIn(stream.data), start);
      GeoBytes(stream.data);
      OpenFacts(a, LineOf(parent));
      var ft, copy, geo := Headers(stream);
      var b := new Bat(stream, geo.table, geo.entries, geo.block);
      this.stream := stream;
      this.parent := parent;
      g := geo;
      footer := ft;
      footerCopy := copy;
      this.start := start;
      upImages := if parent == null then {} else parent.upImages + {parent};
      upFiles := if parent == null then {} else parent.upFiles + {parent.stream};
      upBats := if parent == null then {} else parent.upBats + {parent.bat};
      pos := 0;
      bat := b;
      new;
      assert Wired();
      Opened(a);
    }

    /** The fields as opening sets them. */
    ghost predicate Wired() {
      && bat.stream == stream && bat.offset == g.table && bat.size == g.entries
      && this !in upImages && bat !in upBats && stream !in upFiles
      && (parent == null ==> upImages == {} && upFiles == {} && upBats == {})
      && (parent != null ==> upImages == parent.upImages + {parent} && upFiles == parent.upFiles + {parent.stream})
      && (parent != null ==> upBats == parent.upBats + {parent.bat} && parent !in parent.upImages)
    }

    lemma Opened(a: Layer)
      requires Wired() && bat.Agrees() && FooterIs(stream.data, footer, footerCopy) && Top() == a
      requires parent != null ==> parent.Valid()
      requires Over(a, LineOf(parent)).Valid()
      ensures Valid()
    {
      hide Disk.Valid, BE32;
      if parent != null {
        assert parent.upImages < upImages;
        assert parent.Linked();
      }
      assert Linked();
      assert Line() == Over(a, LineOf(parent));
      assert UpMemo();
      assert Memo();
    }

    /** Reading moves positions and fills memos; no file changes. */
    method Seek(offset: int, whence: int) returns (ok: bool)
      modifies this`pos
      ensures pos == Max(0, if whence == 0 then offset else if whence == 1 then old(pos) + offset else g.size + offset)
      ensures ok == (pos < g.size)
    {
      pos := Max(0, if whence == 0 then offset else if whence == 1 then pos + offset else g.size + offset);
      ok := pos < g.size;
    }

    /** What a method may use of Valid, with the definitions out of sight. */
    lemma Parts()
      requires Valid()
      ensures Linked() && bat.Agrees() && UpMemo() && FooterIs(stream.data, footer, footerCopy) && Line().Valid()
      ensures bat.stream == stream && bat.offset == g.table && bat.size == g.entries && bat !in upBats &&
          stream !in upFiles
      ensures Top().Layout() && g.table + 4 * g.entries <= |stream.data|
    {
      TableRoom(Top());
    }

    lemma UpParts()
      requires Valid()
      ensures Linked() && this !in upImages
      ensures parent == null ==> Under() == Nothing && upImages == {} && upFiles == {} && upBats == {}
      ensures parent != null ==> parent.Valid() && parent.Line() == Under()
      ensures parent != null ==> parent.g.size == g.size && parent.g.block == g.block && parent.g.entries == g.entries
      ensures parent != null ==> parent.upImages < upImages && upImages == parent.upImages + {parent}
      ensures parent != null ==> upFiles == parent.upFiles + {parent.stream} && upBats == parent.upBats + {parent.bat}
    {
      hide Layer.Layout, Layer.Blank, FooterIs, BE32;
      assert UpMemo();
      if parent != null {
        assert Line().under == parent.Line();
        assert parent.Line().Valid();
      }
    }

    lemma UpAgain()
      requires Linked() && (parent != null ==> parent.Valid())
      ensures UpMemo()
    {
    }

    lemma Whole()
      requires Linked() && bat.Agrees() && UpMemo() && FooterIs(stream.data, footer, footerCopy) && Line().Valid()
      ensures Valid()
    {
    }

    lemma KnownHere(i: nat)
      requires Linked()
      ensures Line().Known(i) <==> BE32(stream.data, g.table + 4 * i) != UNUSED || Under().Known(i)
      ensures !Disk.Nothing.Known(i)
    {
      assert Line() == Over(Top(), Under());
      assert Over(Top(), Under()).Known(i) == (Top().Has(i) || Under().Known(i));
      assert Top().Has(i) == (BE32(stream.data, g.table + 4 * i) != UNUSED);
    }

    /** The entry of a block, through the memo. */
    method Lookup(i: nat) returns (e: nat)
      requires Valid() && i < g.entries
      modifies bat`decoded, stream`pos
      ensures Valid() && e == Top().Entry(i)
    {
      hide *;
      Parts();
      e := bat.Get(i);
      Whole();
      EntryIs(i);
    }

    lemma HasHere(i: nat)
      ensures Top().Has(i) <==> Top().Entry(i) != UNUSED
    {
      hide BE32;
    }

    lemma TopIs()
      ensures Top() == Layer(stream.data, g, start)
    {
    }

    lemma EntryIs(i: nat)
      ensures Top().Entry(i) == BE32(stream.data, g.table + 4 * i)
    {
    }

    /** has_block: this image or one it descends from holds the block. */
    method HasBlock(i: nat) returns (b: bool)
      requires Valid() && i < g.entries
      modifies bat`decoded, upBats`decoded, stream`pos, upFiles`pos
      ensures Valid() && b == Line().Known(i)
      decreases upImages
    {
      hide *;
      Parts();
      UpParts();
      KnownHere(i);
      var e := bat.Get(i);
      b := e != UNUSED;
      if !b && parent != null {
        b := parent.HasBlock(i);
      }
      UpAgain();
      Whole();
    }

    // ---- reading ----

    /** A bitmap kept from an earlier round still is the one in the file. */
    ghost predicate Cached(bmp: BlockBitmap?)
      reads stream`data
      reads if bmp == null then {} else {bmp}`bmp
    {
      bmp == null || (bmp.order.MsbFirst? && bmp.bmp == ReadAt(stream.data, 512 * bmp.i, g.Bm()))
    }

    /** How far a transfer of size bytes at the position may go in one block. */
    lemma RoundFacts(size: nat)
      requires Valid() && pos + size <= g.size && size > 0
      ensures g.block > 0 && g.Blk(pos) < g.entries && g.Pos(g.Blk(pos), g.Off(pos)) == pos
      ensures 0 < Min(g.block - g.Off(pos), size) && g.Off(pos) + Min(g.block - g.Off(pos), size) <= g.block
      ensures Min(g.block - g.Off(pos), size) <= size
    {
      Positive(g) by { assert Top().Framed(); }
      g.Split(pos);
      g.Inside(pos) by { assert Top().Framed(); }
      hide *;
      Mins(g.block - g.Off(pos), size);
    }

    /** read: the bytes from the position on, no further than the end of the disk; -1 asks for all of them. */
    method Read(n: int) returns (buf: seq<Byte>)
      requires Valid() && pos <= g.size && n >= -1
      modifies this`pos, upImages`pos, bat`decoded, upBats`decoded, stream`pos, upFiles`pos
      ensures Valid() && Fetched(Line(), old(pos), buf) && ReadFrom(Files(Line()), old(pos), buf)
      ensures |buf| == if n == -1 || old(pos) + n > g.size then g.size - old(pos) else n
      ensures pos == old(pos) + |buf|
      decreases upImages, 4
    {
      hide Image.Valid, Image.Memo, Image.UpMemo, Image.Linked, Image.Line, Image.Under, Image.Cached;
      hide Disk.Valid, Disk.Shows, Fetched, Fixing, BE32, Geo.Blk, Geo.Off, Geo.Pos, Layer.BitOf, Layer.Cell;
      hide FooterIs, IsSet;
      var size: nat := if n == -1 || pos + n > g.size then g.size - pos else n;
      buf := [];
      var bmp: BlockBitmap? := null;
      ghost var p, total := pos, size;
      Parts();
      FetchedNone(Line(), p);
      NoCache();
      while size > 0
        invariant Valid() && Cached(bmp)
        invariant pos == p + |buf| && |buf| + size == total && p + total <= g.size
        invariant Fetched(Line(), p, buf)
        decreases size
      {
        var part;
        part, bmp := ReadRound(size, bmp);
        FetchedMore(Line(), p, buf, part);
        buf := buf + part;
        size := size - |part|;
      }
      ReadStraight(p, buf);
    }

    lemma ReadStraight(p: nat, r: seq<Byte>)
      requires Valid() && Fetched(Line(), p, r)
      ensures ReadFrom(Files(Line()), p, r)
    {
      hide Disk.Valid, ReadFrom, Fetched, Files;
      FetchedFrom(Line(), p, r);
    }

    lemma NoCache()
      ensures Cached(null)
    {
    }

    /** One round of the loop: as much as lies in one block. */
    method ReadRound(size: nat, bmp: BlockBitmap?) returns (part: seq<Byte>, bmp': BlockBitmap?)
      requires Valid() && Cached(bmp) && size > 0 && pos + size <= g.size
      modifies this`pos, upImages`pos, bat`decoded, upBats`decoded, stream`pos, upFiles`pos
      ensures Valid() && Cached(bmp') && 0 < |part| <= size
      ensures pos == old(pos) + |part| && Fetched(Line(), old(pos), part)
      decreases upImages, 3
    {
      hide *;
      Parts();
      RoundFacts(size);
      var batind, offset := g.Blk(pos), g.Off(pos);
      var got := Min(g.block - offset, size);
      var block := Lookup(batind);
      HasHere(batind);
      bmp' := bmp;
      if block == UNUSED {
        part := ReadAbsent(got);
      } else {
        part, bmp' := ReadHeld(batind, offset, got, block, bmp);
      }
      pos := pos + got;
    }

    /** A block this image does not hold: from the parent, or zeros. */
    method ReadAbsent(got: nat) returns (part: seq<Byte>)
      requires Valid() && !Top().Has(g.Blk(pos)) && g.Off(pos) + got <= g.block && pos + got <= g.size && got > 0
      modifies upImages`pos, upBats`decoded, upFiles`pos
      ensures Valid() && |part| == got && Fetched(Line(), pos, part)
      decreases upImages, 1
    {
      hide BE32;
      Parts();
      UpParts();
      if parent != null {
        var ok := parent.Seek(pos, 0);
        part := parent.Read(got);
      } else {
        part := Zeros(got);
        ZerosShown(got, pos);
      }
      UpAgain();
      Whole();
      AbsentHere(part);
    }

    /** A block this image holds: its bytes in one go, then the sectors without a mark. */
    method ReadHeld(batind: nat, offset: nat, got: nat, block: nat, bmp: BlockBitmap?) returns (part: seq<Byte>,
        bmp': BlockBitmap)
      requires Valid() && Cached(bmp) && batind < g.entries && block == Top().Entry(batind) && Top().Has(batind)
      requires offset + got <= g.block && g.Pos(batind, offset) + got <= g.size && got > 0
      modifies upImages`pos, upBats`decoded, upFiles`pos, stream`pos
      ensures Valid() && Cached(bmp') && |part| == got && Fetched(Line(), g.Pos(batind, offset), part)
      decreases upImages, 2
    {
      hide *;
      Parts();
      bmp' := LoadForRead(block, bmp);
      HeldFacts(batind, offset, got);
      stream.Seek(block * 512 + g.Bm() + offset);
      part := stream.Read(got);
      HeldStart(batind, offset, part);
      Whole();
      part := FixSectors(batind, offset, part, bmp');
    }

    method LoadForRead(block: nat, bmp: BlockBitmap?) returns (bmp': BlockBitmap)
      requires Cached(bmp)
      modifies stream`pos
      ensures Cached(bmp') && bmp'.i == block
    {
      if bmp == null || bmp.i != block {
        stream.Seek(block * 512);
        var s := stream.Read(g.Bm());
        bmp' := new BlockBitmap(MsbFirst, s, block);
      } else {
        bmp' := bmp;
      }
    }

    lemma HeldFacts(batind: nat, offset: nat, got: nat)
      requires Valid() && batind < g.entries && Top().Has(batind) && offset + got <= g.block
      ensures Top().Base(batind) + g.Raw() <= |stream.data| && Top().Base(batind) == 512 * Top().Entry(batind)
      ensures |ReadAt(stream.data, 512 * Top().Entry(batind) + g.Bm() + offset, got)| == got
    {
      BlockFits(Top(), batind);
    }

    lemma HeldStart(batind: nat, offset: nat, part: seq<Byte>)
      requires Linked() && part == ReadAt(stream.data, 512 * Top().Entry(batind) + g.Bm() + offset, |part|)
      ensures Fixing(Line(), batind, offset, offset / 512, part)
    {
      FixStart(Line(), batind, offset, part);
    }

    /** Sectors without a mark: from the parent, or zeros. */
    method FixSectors(batind: nat, offset: nat, raw: seq<Byte>, bmp: BlockBitmap) returns (result: seq<Byte>)
      requires Valid() && Cached(bmp) && batind < g.entries && bmp.i == Top().Entry(batind) && Top().Has(batind)
      requires offset + |raw| <= g.block && g.Pos(batind, offset) + |raw| <= g.size && |raw| > 0
      requires Fixing(Line(), batind, offset, offset / 512, raw)
      modifies upImages`pos, upBats`decoded, upFiles`pos
      ensures Valid() && |result| == |raw| && Fetched(Line(), g.Pos(batind, offset), result)
      decreases upImages, 1
    {
      hide *;
      Parts();
      LineIs();
      TopIs();
      result := raw;
      var sec, last := offset / 512, (offset + |raw| - 1) / 512;
      SectorOrder(offset, |raw|);
      while sec <= last
        invariant Valid() && offset / 512 <= sec <= last + 1 && |result| == |raw|
        invariant Fixing(Line(), batind, offset, sec, result)
        decreases last + 1 - sec
      {
        SectorFacts(batind, offset, |raw|, sec, bmp);
        LineIs();
        TopIs();
        if !bmp.Test(sec) {
          var part := Below(batind, offset, sec, |raw|);
          FixClear(Line(), batind, offset, sec, result, part);
          result := result[..From(offset, sec)] + part + result[To(offset, sec, |raw|)..];
          Patched(offset, sec, |raw|, part);
        } else {
          FixSet(Line(), batind, offset, sec, result);
        }
        sec := sec + 1;
      }
      LineIs();
      TopIs();
      FixEnd(Line(), batind, offset, result);
    }

    lemma SectorFacts(batind: nat, offset: nat, got: nat, sec: nat, bmp: BlockBitmap)
      requires Valid() && Cached(bmp) && batind < g.entries && bmp.i == Top().Entry(batind) && Top().Has(batind)
      requires offset + got <= g.block && got > 0 && offset / 512 <= sec <= (offset + got - 1) / 512
      ensures |bmp.bmp| == g.Bm() && sec < 8 * g.Bm() && bmp.Test(sec) == Top().BitOf(batind, sec)
      ensures From(offset, sec) < To(offset, sec, got) <= got
      ensures Line().Over? && Line().top == Top()
    {
      hide Image.Memo, Image.UpMemo, FooterIs, BE32, Layer.BitOf, Disk.Shows;
      BlockFits(Top(), batind);
      MapRead(Top(), batind, bmp.bmp, sec);
      SectorInMap(g, offset + got - 1) by { assert Top().Framed(); }
      hide Image.Valid;
    }

    /** The part of a sector that the images underneath show. */
    method Below(batind: nat, offset: nat, sec: nat, got: nat) returns (part: seq<Byte>)
      requires Valid() && offset + got <= g.block && g.Pos(batind, offset) + got <= g.size
      requires From(offset, sec) < To(offset, sec, got) <= got
      modifies upImages`pos, upBats`decoded, upFiles`pos
      ensures Valid() && |part| == To(offset, sec, got) - From(offset, sec)
      ensures Fetched(Under(), g.Pos(batind, offset + From(offset, sec)), part)
      decreases upImages, 0
    {
      hide BE32;
      Parts();
      UpParts();
      PosPlus(g, batind, offset, From(offset, sec));
      if parent != null {
        var ok := parent.Seek(g.Pos(batind, offset + From(offset, sec)), 0);
        part := parent.Read(To(offset, sec, got) - From(offset, sec));
      } else {
        part := Zeros(To(offset, sec, got) - From(offset, sec));
        ZerosShown(To(offset, sec, got) - From(offset, sec), g.Pos(batind, offset + From(offset, sec)));
      }
      UpAgain();
      Whole();
    }

    lemma AbsentHere(part: seq<Byte>)
      requires Linked() && g.block > 0 && !Top().Has(g.Blk(pos)) && g.Off(pos) + |part| <= g.block
      requires Fetched(Under(), pos, part)
      ensures Fetched(Line(), pos, part)
    {
      AbsentRun(Line(), pos, part);
    }

    // ---- writing ----

    /** The bitmap in memory, and where it belongs. */
    ghost function Bits(bmp: BlockBitmap?): seq<Byte>
      reads if bmp == null then {} else {bmp}`bmp
    {
      if bmp == null then [] else bmp.bmp
    }

    ghost function BaseOf(bmp: BlockBitmap?): nat { if bmp == null then 0 else bmp.i * 512 }

    /** The container once that bitmap is flushed, and the disk it shows. */
    ghost function Now(bmp: BlockBitmap?): (a: Layer)
      reads stream`data
      reads if bmp == null then {} else {bmp}`bmp
      ensures a.g == g && a.start == start
    {
      Layer(Flushed(stream.data, BaseOf(bmp), Bits(bmp)), g, start)
    }

    ghost function NowDisk(bmp: BlockBitmap?): (k: Disk)
      requires Linked()
      reads stream`data, upFiles`data
      reads if bmp == null then {} else {bmp}`bmp
      ensures k == Over(Now(bmp), Under())
    {
      Over(Now(bmp), Under())
    }

    /** In the middle of a write: the container is sound once the bitmap of block held is flushed. */
    ghost predicate Writing(bmp: BlockBitmap?, held: nat)
      reads this`footer, upImages`footer, bat`decoded, upBats`decoded, stream`data, upFiles`data
      reads if bmp == null then {} else {bmp}`bmp
    {
      && Linked() && Memo() && NowDisk(bmp).Valid()
      && Waiting(Now(bmp), stream.data, held, BaseOf(bmp), Bits(bmp))
      && (bmp != null ==> bmp.order.MsbFirst? && |bmp.bmp| == g.Bm())
    }

    lemma WritingParts(bmp: BlockBitmap?, held: nat)
      requires Writing(bmp, held)
      ensures Linked() && bat.Agrees() && FooterIs(stream.data, footer, footerCopy) && UpMemo()
      ensures bat.stream == stream && bat.offset == g.table && bat.size == g.entries && bat !in upBats &&
          stream !in upFiles
      ensures NowDisk(bmp).Valid() && Now(bmp).Layout() && |Now(bmp).d| == |stream.data|
      ensures g.table + 4 * g.entries <= |stream.data| && |stream.data| >= 512
      ensures parent != null ==> parent.Valid() && parent.Line() == Under()
      ensures parent != null ==> parent.g.size == g.size && parent.g.block == g.block && parent.g.entries == g.entries
    {
      TableRoom(Now(bmp));
      Product(Now(bmp).Used(g.entries), g.Raw());
      assert UpMemo();
      hide Layer.Layout, FooterIs;
    }

    /** The images underneath, for frames. */
    lemma UpSets()
      requires Linked()
      ensures this !in upImages && stream !in upFiles && bat !in upBats
      ensures parent != null ==> parent.upImages < upImages && upImages == parent.upImages + {parent}
      ensures parent != null ==> upFiles == parent.upFiles + {parent.stream} && upBats == parent.upBats + {parent.bat}
      ensures parent == null ==> Under() == Nothing
    {
    }

    lemma WritingEntry(bmp: BlockBitmap?, held: nat, i: nat)
      requires Writing(bmp, held) && i < g.entries
      ensures BE32(stream.data, g.table + 4 * i) == Now(bmp).Entry(i)
    {
      WaitingEntry(Now(bmp), stream.data, held, BaseOf(bmp), Bits(bmp), i);
    }

    lemma WritingAgain(bmp: BlockBitmap?, held: nat)
      requires Linked() && bat.Agrees() && FooterIs(stream.data, footer, footerCopy) && UpMemo() && NowDisk(bmp).Valid()
      requires Waiting(Now(bmp), stream.data, held, BaseOf(bmp), Bits(bmp))
      requires bmp != null ==> bmp.order.MsbFirst? && |bmp.bmp| == g.Bm()
      ensures Writing(bmp, held)
    {
    }

    /** The entry of a block while a bitmap waits in memory. */
    method LookupWriting(i: nat, ghost bmp: BlockBitmap?, ghost held: nat) returns (e: nat)
      requires Writing(bmp, held) && i < g.entries
      modifies bat`decoded, stream`pos
      ensures Writing(bmp, held) && e == Now(bmp).Entry(i)
    {
      hide *;
      WritingParts(bmp, held);
      WritingEntry(bmp, held, i);
      WritingWaits(bmp, held);
      e := bat.Get(i);
      WritingAgain(bmp, held);
    }

    lemma WritingWaits(bmp: BlockBitmap?, held: nat)
      requires Writing(bmp, held)
      ensures Waiting(Now(bmp), stream.data, held, BaseOf(bmp), Bits(bmp))
      ensures bmp != null ==> bmp.order.MsbFirst? && |bmp.bmp| == g.Bm()
    {
    }

    /** Allocates a block over the trailing footer and writes the footer after it. */
    method Allocate(i: nat, ghost bmp: BlockBitmap?, ghost held: nat) returns (block: nat)
      requires Writing(bmp, held) && i < g.entries && !Now(bmp).Has(i)
      modifies stream, bat`decoded, this`footer
      ensures Writing(bmp, held) && Now(bmp).Has(i) && block == Now(bmp).Entry(i)
      ensures SameDisk(old(NowDisk(bmp)), NowDisk(bmp)) && |old(footer)| == 512
      ensures Now(bmp).Held() == old(Now(bmp).Held()) + {i} && footer == Packed(old(footer))
    {
      hide *;
      WritingParts(bmp, held);
      WritingWaits(bmp, held);
      AllocFacts(bmp, held, i);
      UpSets();
      ghost var d, a, ft := stream.data, Now(bmp), footer;
      stream.Seek(|stream.data| - 512);
      block := stream.pos / 512;
      bat.Set(i, block);
      ghost var d1 := stream.data;
      MemoHere();
      AppendBlock(d, d1, i);
      AllocatedMemo(d, d1, i, ft);
      AllocatedDisk(a, d, bmp, held, i, ft);
      UpAgain();
      WritingAgain(bmp, held);
    }

    /** Bitmap, data area and footer, packed anew, from the position on. */
    method AppendBlock(ghost d: seq<Byte>, ghost d1: seq<Byte>, ghost i: nat)
      requires |d| >= 512 && (|d| - 512) / 512 < UNUSED && stream.pos == |d| - 512 && |footer| == 512
      requires stream.data == d1 == Overwrite(d, g.table + 4 * i, Pack32BE((|d| - 512) / 512))
      modifies stream, this`footer
      ensures footer == Packed(old(footer)) && stream.data == Extended(d, g.table + 4 * i, |d| - 512, g, footer)
    {
      hide Overwrite, Zeros, Pack32BE, Packed;
      ZerosAt(g.Bm(), 0);
      ZerosAt(g.block, 0);
      stream.Write(Zeros(g.Bm()));
      stream.Write(Zeros(g.block));
      footer := Packed(footer);
      stream.Write(footer);
    }

    lemma MemoHere()
      requires bat.stream == stream && bat.offset == g.table && bat.size == g.entries
      ensures bat.Agrees() <==> MemoOf(bat.decoded, stream.data, g.table, g.entries)
    {
    }

    lemma AllocFacts(bmp: BlockBitmap?, held: nat, i: nat)
      requires Writing(bmp, held) && i < g.entries && !Now(bmp).Has(i)
      ensures |stream.data| >= 512 && (|stream.data| - 512) / 512 < UNUSED
      ensures g.table + 4 * g.entries + 512 <= |stream.data| && |footer| == 512 && 512 <= g.table
    {
      hide Layer.Has, Layer.Placed, Layer.Disjoint;
      FooterSector(Now(bmp), i);
      TableRoom(Now(bmp));
      Product(Now(bmp).Used(g.entries), g.Raw());
    }

    /** The memo and the footer in memory still are those of the file. */
    lemma AllocatedMemo(d: seq<Byte>, d1: seq<Byte>, i: nat, ft: seq<Byte>)
      requires i < g.entries && g.table + 4 * g.entries + 512 <= |d| && (|d| - 512) / 512 < UNUSED
      requires FooterIs(d, ft, footerCopy) && footer == Packed(ft) && 512 <= g.table
      requires bat.stream == stream && bat.offset == g.table && bat.size == g.entries
      requires d1 == Overwrite(d, g.table + 4 * i, Pack32BE((|d| - 512) / 512))
      requires MemoOf(bat.decoded, d1, g.table, g.entries)
      requires stream.data == Extended(d, g.table + 4 * i, |d| - 512, g, footer)
      ensures bat.Agrees() && FooterIs(stream.data, footer, footerCopy)
    {
      hide Extended, Overwrite, At, MemoOf, Pack32BE, Packed;
      var slot, e := g.table + 4 * i, |d| - 512;
      forall k {:trigger At(stream.data, k)} | g.table <= k < g.table + 4 * g.entries ensures At(stream.data, k) == At(d1, k) {
        ExtendedAt(d, slot, e, g, footer, k);
        AtOverwrite(d, slot, Pack32BE(e / 512), k);
      }
      MemoKept(bat.decoded, d1, stream.data, g.table, g.entries);
      forall k | 0 <= k < 512 ensures Foot(stream.data, k) == footer[k] && At(stream.data, k) == At(d, k) {
        ExtendedAt(d, slot, e, g, footer, e + g.Raw() + k);
        ExtendedAt(d, slot, e, g, footer, k);
      }
      TitlesAre(stream.data, footer, footerCopy, d);
    }

    lemma AllocatedDisk(a: Layer, d: seq<Byte>, bmp: BlockBitmap?, held: nat, i: nat, ft: seq<Byte>)
      requires Linked() && Over(a, Under()).Valid() && a.g == g && a.start == start && i < g.entries && !a.Has(i)
      requires Waiting(a, d, held, BaseOf(bmp), Bits(bmp)) && (bmp != null ==> |bmp.bmp| == g.Bm())
      requires FooterIs(d, ft, footerCopy) && footer == Packed(ft)
      requires stream.data == Extended(d, g.table + 4 * i, |d| - 512, g, footer)
      ensures NowDisk(bmp).Valid() && SameDisk(Over(a, Under()), NowDisk(bmp))
      ensures Waiting(Now(bmp), stream.data, held, BaseOf(bmp), Bits(bmp))
      ensures Now(bmp).Has(i) && Now(bmp).Entry(i) == (|d| - 512) / 512 && Now(bmp).Held() == a.Held() + {i}
    {
      hide Extended, Flushed, Layer.Layout, SameDisk, BE32, Packed, Layer.Held;
      var b := Now(bmp);
      ExtendWaiting(a, d, held, BaseOf(bmp), Bits(bmp), i, footer, b);
      AppendedDisk(a, b, Under(), i);
      LayoutFramed(a);
      AppendedNew(a, b, i);
      AppendedHeld(a, b, i);
      FooterSector(a, i);
      AppendedWaits(a, b, d, held, BaseOf(bmp), Bits(bmp), i, stream.data);
    }

    // ---- the bitmap in memory ----

    method Flush(bmp: BlockBitmap?, ghost held: nat)
      requires Writing(bmp, held)
      modifies stream
      ensures Writing(null, 0) && NowDisk(null) == old(NowDisk(bmp))
    {
      hide BE32;
      WritingParts(bmp, held);
      WritingWaits(bmp, held);
      ghost var d, a := stream.data, Now(bmp);
      if bmp != null {
        stream.Seek(bmp.i * 512);
        stream.Write(bmp.bmp);
      }
      FlushedMemo(a, d, bmp, held);
      FlushedNow(a);
      WritingAgain(null, 0);
    }

    lemma FlushedNow(a: Layer)
      requires a == Layer(stream.data, g, start)
      ensures Now(null) == a && Waiting(Now(null), stream.data, 0, BaseOf(null), Bits(null))
    {
    }

    lemma FlushedMemo(a: Layer, d: seq<Byte>, bmp: BlockBitmap?, held: nat)
      requires a.Layout() && a.g == g && a.start == start && Waiting(a, d, held, BaseOf(bmp), Bits(bmp))
      requires bat.stream == stream && bat.offset == g.table && bat.size == g.entries
      requires MemoOf(bat.decoded, d, g.table, g.entries) && FooterIs(d, footer, footerCopy)
      requires stream.data == if bmp == null then d else Overwrite(d, bmp.i * 512, bmp.bmp)
      ensures a == Layer(stream.data, g, start) && bat.Agrees() && FooterIs(stream.data, footer, footerCopy)
    {
      assert stream.data == a.d;
      SoundMemo(a, d, bat.decoded, held, BaseOf(bmp), Bits(bmp), footer, footerCopy);
    }

    method Load(block: nat, ghost i: nat) returns (bmp: BlockBitmap)
      requires Writing(null, 0) && i < g.entries && Now(null).Has(i) && block == Now(null).Entry(i)
      modifies stream`pos
      ensures Writing(bmp, i) && NowDisk(bmp) == NowDisk(null) && bmp.i == block && fresh(bmp)
    {
      hide *;
      WritingParts(null, 0);
      LoadFacts(i);
      TopIs();
      stream.Seek(block * 512);
      var s := stream.Read(g.Bm());
      bmp := new BlockBitmap(MsbFirst, s, block);
      Loaded(bmp, i);
      WritingAgain(bmp, i);
    }

    lemma LoadFacts(i: nat)
      requires Writing(null, 0) && i < g.entries && Now(null).Has(i)
      ensures Now(null).Base(i) + g.Bm() <= |stream.data| && Now(null) == Layer(stream.data, g, start)
      ensures |ReadAt(stream.data, Now(null).Entry(i) * 512, g.Bm())| == g.Bm()
    {
      BlockFits(Now(null), i);
    }

    lemma Loaded(bmp: BlockBitmap, i: nat)
      requires Linked() && i < g.entries && Top().Has(i) && bmp.i == Top().Entry(i) &&
          Top().Base(i) + g.Bm() <= |stream.data|
      requires bmp.bmp == ReadAt(stream.data, bmp.i * 512, g.Bm())
      ensures Now(bmp) == Top() && Now(null) == Top()
      ensures Waiting(Now(bmp), stream.data, i, BaseOf(bmp), Bits(bmp))
    {
      FlushedSame(stream.data, bmp.i * 512, g.Bm());
      hide BE32;
    }

    /** Commits the bitmap of another block and takes up that of block i. */
    method TurnTo(block: nat, bmp: BlockBitmap?, ghost held: nat, ghost i: nat) returns (bmp': BlockBitmap)
      requires Writing(bmp, held) && i < g.entries && Now(bmp).Has(i) && block == Now(bmp).Entry(i)
      modifies stream
      ensures Writing(bmp', i) && NowDisk(bmp') == old(NowDisk(bmp)) && bmp'.i == block
      ensures bmp' == bmp || fresh(bmp')
    {
      hide *;
      if bmp == null || bmp.i != block {
        Flush(bmp, held);
        bmp' := Load(block, i);
      } else {
        bmp' := bmp;
        SameBlockHeld(bmp, held, i);
      }
    }

    lemma SameBlockHeld(bmp: BlockBitmap, held: nat, i: nat)
      requires Writing(bmp, held) && i < g.entries && Now(bmp).Has(i) && bmp.i == Now(bmp).Entry(i)
      ensures Writing(bmp, i)
    {
    }

    // ---- storing in a block ----

    /** The block a write is in: held by the image, its bitmap in memory. */
    ghost predicate InBlock(bmp: BlockBitmap, i: nat)
      reads this`footer, upImages`footer, bat`decoded, upBats`decoded, stream`data, upFiles`data, bmp`bmp
    {
      Writing(bmp, i) && i < g.entries && Now(bmp).Has(i) && bmp.i == Now(bmp).Entry(i)
    }

    lemma BlockParts(bmp: BlockBitmap, i: nat)
      requires InBlock(bmp, i)
      ensures Writing(bmp, i) && i < g.entries && Now(bmp).Has(i) && Now(bmp).Entry(i) == bmp.i
      ensures bmp.order.MsbFirst? && |bmp.bmp| == g.Bm() && g.Valid() && g.block > 0
      ensures Waiting(Now(bmp), stream.data, i, bmp.i * 512, bmp.bmp) && NowDisk(bmp).Valid() && Now(bmp).Layout()
    {
      LayoutFramed(Now(bmp));
      Positive(g);
    }

    lemma TestIs(bmp: BlockBitmap, i: nat, sec: nat)
      requires InBlock(bmp, i) && sec < 8 * g.Bm()
      ensures |bmp.bmp| == g.Bm() && bmp.Test(sec) == Now(bmp).BitOf(i, sec)
    {
      BlockParts(bmp, i);
      BlockFits(Now(bmp), i);
      FlushedAt(stream.data, bmp.i * 512, bmp.bmp, bmp.i * 512 + sec / 8);
      BitFromMap(bmp.bmp, sec);
      hide *;
    }

    /** s went to the data area of block i and its sectors were marked in memory. */
    lemma Stored(a: Layer, d: seq<Byte>, bits: seq<Byte>, bmp: BlockBitmap, i: nat, off: nat, s: seq<Byte>,
        from: nat, n: nat)
      requires Linked() && UpMemo() && bat.stream == stream && bat.offset == g.table && bat.size == g.entries
      requires MemoOf(bat.decoded, d, g.table, g.entries) && FooterIs(d, footer, footerCopy) && bmp.order.MsbFirst?
      requires a.g == g && a.start == start && Over(a, Under()).Valid() && i < g.entries && a.Has(i) &&
          a.Entry(i) == bmp.i
      requires Waiting(a, d, i, bmp.i * 512, bits) && |bits| == g.Bm()
      requires stream.data == Overwrite(d, bmp.i * 512 + g.Bm() + off, s) && Marks(MsbFirst, bits, bmp.bmp, from, n,
          false)
      requires Covers(g, i, from, n, off, |s|) && Ready(a, Under(), i, from, n, off, |s|)
      ensures InBlock(bmp, i) && Wrote(Over(a, Under()), NowDisk(bmp), g.Pos(i, off), s)
      ensures forall sec {:trigger Now(bmp).BitOf(i, sec)} :: 0 <= sec < 8 * g.Bm() ==>
        (Now(bmp).BitOf(i, sec) <==> from <= sec < from + n || a.BitOf(i, sec))
      ensures Now(bmp).Held() == a.Held()
    {
      hide BE32, Layer.Held;
      NowIs(bmp);
      StoredLayer(a, d, stream.data, Now(bmp), Under(), i, off, s, bits, bmp.bmp, from, n);
      OverParts(a, Under());
      WaitingSize(a, d, i, bmp.i * 512, bits);
      CoversRoom(g, i, from, n, off, |s|);
      StoredMemo(a, d, stream.data, bat.decoded, i, off, s, footer, footerCopy);
      MarksSize(bits, bmp.bmp, from, n);
      WritingAgain(bmp, i);
    }

    lemma NowIs(bmp: BlockBitmap)
      ensures Now(bmp) == Layer(Flushed(stream.data, bmp.i * 512, bmp.bmp), g, start)
    {
    }

    /** copysect: a sector of block i, copied from what the images underneath show, and marked. */
    method CopySect(vpos: nat, sec: nat, bmp: BlockBitmap, ghost i: nat)
      requires InBlock(bmp, i) && parent != null && vpos < g.size && g.Blk(vpos) == i && sec == g.Off(vpos) / 512
      requires !Now(bmp).BitOf(i, sec)
      modifies stream, upImages`pos, upBats`decoded, upFiles`pos, bmp`bmp, bmp`modified
      ensures InBlock(bmp, i) && SameDisk(old(NowDisk(bmp)), NowDisk(bmp))
      ensures forall t {:trigger Now(bmp).BitOf(i, t)} :: 0 <= t < 8 * g.Bm() ==>
        (Now(bmp).BitOf(i, t) <==> t == sec || old(Now(bmp).BitOf(i, t)))
      ensures Now(bmp).Held() == old(Now(bmp).Held())
    {
      hide *;
      BlockParts(bmp, i);
      WritingParts(bmp, i);
      UpSets();
      SectorPlace(g, vpos, i, sec);
      MemoHere();
      ghost var d, a, bits := stream.data, Now(bmp), bmp.bmp;
      var s := SectorBelow(vpos, i, sec);
      CopyCovers(a, Under(), i, sec, s);
      stream.Seek(bmp.i * 512 + g.Bm() + sec * 512);
      stream.Write(s);
      UpAgain();
      bmp.Set(sec, 1, false);
      Stored(a, d, bits, bmp, i, 512 * sec, s, sec, 1);
      WroteShown(Over(a, Under()), NowDisk(bmp), g.Pos(i, 512 * sec), s);
      OneMore(a, Now(bmp), i, sec);
    }

    /** The sector that the images underneath show, around a position. */
    method SectorBelow(vpos: nat, ghost i: nat, ghost sec: nat) returns (s: seq<Byte>)
      requires Linked() && parent != null && parent.Valid() && parent.g.size == g.size && parent.Line() == Under()
      requires vpos / 512 * 512 == g.Pos(i, 512 * sec) && g.Pos(i, 512 * sec) + 512 <= g.size
      modifies upImages`pos, upBats`decoded, upFiles`pos
      ensures parent.Valid() && Under() == old(Under()) && |s| == 512 && Fetched(Under(), g.Pos(i, 512 * sec), s)
    {
      hide Image.Valid, Image.Memo, Image.UpMemo, Image.Under, Image.Line, Fetched, Geo.Pos;
      UpSets();
      var ok := parent.Seek(vpos / 512 * 512, 0);
      s := parent.Read(512);
      LineAgain();
    }

    lemma OneMore(a: Layer, b: Layer, i: nat, sec: nat)
      requires forall t {:trigger b.BitOf(i, t)} :: 0 <= t < 8 * g.Bm() ==> (b.BitOf(i, t) <==> sec <= t < sec + 1 || a.BitOf(i, t))
      ensures forall t {:trigger b.BitOf(i, t)} :: 0 <= t < 8 * g.Bm() ==> (b.BitOf(i, t) <==> t == sec || a.BitOf(i, t))
    {
      hide Layer.BitOf;
    }


    /** Copies an edge sector up if it is written in part and not held yet. */
    method CopyEdge(vpos: nat, sec: nat, partial: bool, bmp: BlockBitmap, ghost i: nat)
      requires InBlock(bmp, i) && parent != null && vpos < g.size && g.Blk(vpos) == i && sec == g.Off(vpos) / 512
      modifies stream, upImages`pos, upBats`decoded, upFiles`pos, bmp`bmp, bmp`modified
      ensures InBlock(bmp, i) && SameDisk(old(NowDisk(bmp)), NowDisk(bmp))
      ensures MoreBits(old(Now(bmp)), Now(bmp), i) && (partial ==> Now(bmp).BitOf(i, sec))
      ensures Now(bmp).Held() == old(Now(bmp).Held())
    {
      hide *;
      BlockParts(bmp, i);
      EdgeInMap(vpos, i);
      TestIs(bmp, i, sec);
      WroteNothing(NowDisk(bmp), 0);
      MoreBitsSame(Now(bmp), i);
      ghost var a := Now(bmp);
      if partial && !bmp.Test(sec) {
        CopySect(vpos, sec, bmp, i);
        MoreBitsCopied(a, Now(bmp), i, sec);
      }
    }

    lemma EdgeInMap(vpos: nat, i: nat)
      requires g.Valid()
      ensures g.Off(vpos) / 512 < 8 * g.Bm()
    {
      Positive(g);
      SectorInMap(g, g.Off(vpos));
    }

    /** Copies the sectors at both ends of a write up, so that the write may mark them. */
    method CopyUp(offset: nat, put: nat, bmp: BlockBitmap, ghost i: nat)
      requires InBlock(bmp, i) && parent != null && put > 0 && pos + put <= g.size
      requires g.Blk(pos) == i && g.Off(pos) == offset && offset + put <= g.block
      modifies stream, upImages`pos, upBats`decoded, upFiles`pos, bmp`bmp, bmp`modified
      ensures InBlock(bmp, i) && SameDisk(old(NowDisk(bmp)), NowDisk(bmp))
      ensures Ready(Now(bmp), Under(), i, offset / 512, (offset + put - 1) / 512 - offset / 512 + 1, offset, put)
      ensures Now(bmp).Held() == old(Now(bmp).Held())
    {
      hide *;
      BlockParts(bmp, i);
      UpSets();
      ghost var k := NowDisk(bmp);
      var start, stop := offset / 512, (offset + put - 1) / 512;
      g.Along(pos, put - 1);
      EdgeInMap(pos, i);
      CopyEdge(pos, start, offset % 512 != 0, bmp, i);
      ghost var k1, a1 := NowDisk(bmp), Now(bmp);
      CopyEdge(pos + put - 1, stop, (offset + put) % 512 != 0, bmp, i);
      BlockParts(bmp, i);
      MoreBitsAt(a1, Now(bmp), i, start);
      MarkedReady(Now(bmp), Under(), i, offset, put);
      SameTwice(k, k1, NowDisk(bmp));
    }

    /** Marks the sectors and stores the bytes. */
    method StoreChunk(offset: nat, s: seq<Byte>, bmp: BlockBitmap, ghost i: nat)
      requires InBlock(bmp, i) && |s| > 0 && offset + |s| <= g.block && g.Pos(i, offset) + |s| <= g.size
      requires Ready(Now(bmp), Under(), i, offset / 512, (offset + |s| - 1) / 512 - offset / 512 + 1, offset, |s|)
      modifies stream, bmp`bmp, bmp`modified
      ensures InBlock(bmp, i) && Wrote(old(NowDisk(bmp)), NowDisk(bmp), g.Pos(i, offset), s)
      ensures Now(bmp).Held() == old(Now(bmp).Held())
    {
      hide *;
      BlockParts(bmp, i);
      WritingParts(bmp, i);
      ChunkCovers(g, i, offset, |s|);
      MemoHere();
      ghost var d, a, bits := stream.data, Now(bmp), bmp.bmp;
      var first, last := offset / 512, (offset + |s| - 1) / 512;
      bmp.Set(first, last - first + 1, false);
      stream.Seek(bmp.i * 512 + g.Bm() + offset);
      stream.Write(s);
      Stored(a, d, bits, bmp, i, offset, s, first, last - first + 1);
    }

    /** has_block in the middle of a write. */
    method KnownWriting(i: nat, ghost bmp: BlockBitmap?, ghost held: nat) returns (b: bool)
      requires Writing(bmp, held) && i < g.entries
      modifies bat`decoded, upBats`decoded, stream`pos, upFiles`pos
      ensures Writing(bmp, held) && b == NowDisk(bmp).Known(i)
    {
      hide BE32;
      WritingParts(bmp, held);
      UpSets();
      KnownOver(Now(bmp), Under(), i);
      var e := LookupWriting(i, bmp, held);
      b := e != UNUSED;
      if !b && parent != null {
        WritingParts(bmp, held);
        WritingWaits(bmp, held);
        b := parent.HasBlock(i);
        UpAgain();
        WritingAgain(bmp, held);
      }
    }

    /** Differencing: the block to write to, allocated if need be; none if zeros may stay virtual. */
    method Place1(s: seq<Byte>, ghost bmp: BlockBitmap?, ghost held: nat, ghost i: nat) returns (block: nat)
      requires Writing(bmp, held) && |s| > 0 && g.block > 0 && i == g.Blk(pos) < g.entries && g.Off(pos) + |s| <= g.block
      modifies stream, bat`decoded, this`footer, upBats`decoded, upFiles`pos
      ensures Writing(bmp, held) && Under() == old(Under())
      ensures Grown(old(Now(bmp).Held()), old(footer), Now(bmp).Held(), footer, Needed(g, Under(), pos, s))
      ensures block == UNUSED ==> Wrote(old(NowDisk(bmp)), NowDisk(bmp), pos, s)
      ensures block != UNUSED ==> SameDisk(old(NowDisk(bmp)), NowDisk(bmp)) && Now(bmp).Has(i) && block == Now(bmp).Entry(i)
    {
      hide *;
      WritingParts(bmp, held);
      UpSets();
      WroteNothing(NowDisk(bmp), 0);
      FooterSize(stream.data, footer, footerCopy);
      ghost var h, ft := Now(bmp).Held(), footer;
      KnownOver(Now(bmp), Under(), i);
      InHeld(Now(bmp), i);
      block := LookupWriting(g.Blk(pos), bmp, held);
      if block == UNUSED {
        var known := KnownWriting(g.Blk(pos), bmp, held);
        if !known && s == Zeros(|s|) {
          ZerosVirtual(NowDisk(bmp), pos, s) by { WritingParts(bmp, held); }
          GrownOne(g, Under(), pos, s, h, ft, Now(bmp).Held(), footer);
          return;
        }
        block := Allocate(g.Blk(pos), bmp, held);
        InHeld(Now(bmp), i);
      }
      GrownOne(g, Under(), pos, s, h, ft, Now(bmp).Held(), footer);
    }

    /** Dynamic: as above, with no image underneath to ask. */
    method Place(s: seq<Byte>, ghost bmp: BlockBitmap?, ghost held: nat, ghost i: nat) returns (block: nat)
      requires Writing(bmp, held) && parent == null
      requires |s| > 0 && g.block > 0 && i == g.Blk(pos) < g.entries && g.Off(pos) + |s| <= g.block
      modifies stream, bat`decoded, this`footer
      ensures Writing(bmp, held) && Under() == old(Under())
      ensures Grown(old(Now(bmp).Held()), old(footer), Now(bmp).Held(), footer, Needed(g, Under(), pos, s))
      ensures block == UNUSED ==> Wrote(old(NowDisk(bmp)), NowDisk(bmp), pos, s)
      ensures block != UNUSED ==> SameDisk(old(NowDisk(bmp)), NowDisk(bmp)) && Now(bmp).Has(i) && block == Now(bmp).Entry(i)
    {
      hide *;
      WritingParts(bmp, held);
      UpSets();
      WroteNothing(NowDisk(bmp), 0);
      FooterSize(stream.data, footer, footerCopy);
      ghost var h, ft := Now(bmp).Held(), footer;
      KnownOver(Now(bmp), Under(), i);
      InHeld(Now(bmp), i);
      block := LookupWriting(g.Blk(pos), bmp, held);
      if block == UNUSED {
        if s == Zeros(|s|) {
          ZerosVirtual(NowDisk(bmp), pos, s) by { WritingParts(bmp, held); }
          GrownOne(g, Under(), pos, s, h, ft, Now(bmp).Held(), footer);
          return;
        }
        block := Allocate(g.Blk(pos), bmp, held);
        InHeld(Now(bmp), i);
      }
      GrownOne(g, Under(), pos, s, h, ft, Now(bmp).Held(), footer);
    }

    // ---- the loops of write ----

    /** What a round may rely on: the bytes lie in one block of the disk. */
    ghost predicate OneBlock(s: seq<Byte>)
      reads this`pos
    {
      |s| > 0 && g.block > 0 && pos + |s| <= g.size && g.Blk(pos) < g.entries && g.Off(pos) + |s| <= g.block
    }

    /** One round of write1, for a differencing image. */
    method Write1Round(s: seq<Byte>, bmp: BlockBitmap?, ghost held: nat) returns (bmp': BlockBitmap?, ghost held': nat)
      requires Writing(bmp, held) && parent != null && OneBlock(s)
      modifies stream, this`pos, bat`decoded, this`footer, upImages`pos, upBats`decoded, upFiles`pos
      modifies if bmp == null then {} else {bmp}
      ensures Writing(bmp', held') && pos == old(pos) + |s| && Under() == old(Under())
      ensures Grown(old(Now(bmp).Held()), old(footer), Now(bmp').Held(), footer, Needed(g, Under(), old(pos), s))
      ensures Wrote(old(NowDisk(bmp)), NowDisk(bmp'), old(pos), s)
      ensures bmp' == bmp || fresh(bmp')
    {
      hide Image.Valid, Image.Memo, Image.UpMemo, Image.Linked, Image.Under, Image.Line, Image.Writing;
      hide Image.Now, Image.NowDisk, Image.Bits, Image.InBlock, Disk.Valid, Disk.Shows, Disk.Known, Waiting;
      hide Wrote, SameDisk, Flushed, Layer.Layout, Layer.BitOf, BE32, Geo.Blk, Geo.Off, Geo.Pos, FooterIs;
      hide Ready, Marks, IsSet, Fetched, Covers, MoreBits, Overwrite, Grown, Needed, Layer.Held;
      WritingParts(bmp, held);
      UpSets();
      ghost var k, i := NowDisk(bmp), g.Blk(pos);
      bmp', held' := bmp, held;
      var block := Place1(s, bmp, held, i);
      if block != UNUSED {
        ghost var k1 := NowDisk(bmp);
        bmp' := StoreIn(block, s, bmp, held, i);
        held' := i;
        WroteSame(k, k1, NowDisk(bmp'), pos, s);
      }
      pos := pos + |s|;
    }

    /** The bytes go to block i, its edge sectors copied up first. */
    method StoreIn(block: nat, s: seq<Byte>, bmp: BlockBitmap?, ghost held: nat,
        ghost i: nat) returns (bmp': BlockBitmap)
      requires Writing(bmp, held) && parent != null && OneBlock(s) && i == g.Blk(pos)
      requires Now(bmp).Has(i) && block == Now(bmp).Entry(i)
      modifies stream, upImages`pos, upBats`decoded, upFiles`pos
      modifies if bmp == null then {} else {bmp}
      ensures Writing(bmp', i) && Wrote(old(NowDisk(bmp)), NowDisk(bmp'), pos, s)
      ensures Now(bmp').Held() == old(Now(bmp).Held())
      ensures bmp' == bmp || fresh(bmp')
    {
      hide Layer.Layout, Layer.Held;
      WritingParts(bmp, held);
      UpSets();
      ghost var k := NowDisk(bmp);
      bmp' := TurnTo(block, bmp, held, i);
      InBlockNow(bmp', i);
      CopyUp(g.Off(pos), |s|, bmp', i);
      g.Split(pos);
      ghost var k2 := NowDisk(bmp');
      StoreChunk(g.Off(pos), s, bmp', i);
      BlockParts(bmp', i);
      WroteSame(k, k2, NowDisk(bmp'), pos, s);
    }

    /** One round of write, for a dynamic image. */
    method WriteRound(s: seq<Byte>, bmp: BlockBitmap?, ghost held: nat) returns (bmp': BlockBitmap?, ghost held': nat)
      requires Writing(bmp, held) && parent == null && OneBlock(s)
      modifies stream, this`pos, bat`decoded, this`footer
      modifies if bmp == null then {} else {bmp}
      ensures Writing(bmp', held') && pos == old(pos) + |s| && Under() == old(Under())
      ensures Grown(old(Now(bmp).Held()), old(footer), Now(bmp').Held(), footer, Needed(g, Under(), old(pos), s))
      ensures Wrote(old(NowDisk(bmp)), NowDisk(bmp'), old(pos), s)
      ensures bmp' == bmp || fresh(bmp')
    {
      hide Image.InBlock, Disk.Valid, SameDisk, Flushed, Layer.Layout, Layer.BitOf, Grown, Needed, Layer.Held;
      WritingParts(bmp, held);
      UpSets();
      ghost var k, i := NowDisk(bmp), g.Blk(pos);
      bmp', held' := bmp, held;
      var block := Place(s, bmp, held, i);
      if block != UNUSED {
        ghost var k1 := NowDisk(bmp);
        bmp' := TurnTo(block, bmp, held, i);
        held' := i;
        InBlockNow(bmp', i);
        DynamicReady(bmp', i, g.Off(pos), |s|);
        g.Split(pos);
        StoreChunk(g.Off(pos), s, bmp', i);
        BlockParts(bmp', i);
        WroteSame(k, k1, NowDisk(bmp'), pos, s);
      }
      pos := pos + |s|;
    }

    lemma InBlockNow(bmp: BlockBitmap, i: nat)
      requires Writing(bmp, i) && i < g.entries && Now(bmp).Has(i) && bmp.i == Now(bmp).Entry(i)
      ensures InBlock(bmp, i)
    {
    }

    lemma DynamicReady(bmp: BlockBitmap, i: nat, off: nat, len: nat)
      requires Linked() && InBlock(bmp, i) && parent == null && len > 0
      ensures Ready(Now(bmp), Under(), i, off / 512, (off + len - 1) / 512 - off / 512 + 1, off, len)
    {
      hide Layer.Layout, BE32, Waiting, Image.Memo;
      BlankReady(Now(bmp), i, off / 512, (off + len - 1) / 512 - off / 512 + 1, off, len);
    }

    lemma StartWriting()
      requires Valid()
      ensures Writing(null, 0) && NowDisk(null) == Line()
    {
      hide FooterIs, Disk.Valid;
    }

    lemma DoneWriting()
      requires Writing(null, 0)
      ensures Valid() && NowDisk(null) == Line() && Now(null) == Top() && footerCopy == Lead(stream.data)
    {
      hide Disk.Valid;
    }

    lemma GrownNothing(p: nat)
      requires Valid()
      ensures Now(null) == Top() && Grown(Top().Held(), footer, Now(null).Held(), footer, Needed(g, Under(), p, []))
    {
    }

    /** The piece a round takes lies in one block. */
    lemma OneBlockHere(bmp: BlockBitmap?, held: nat, s: seq<Byte>, done: nat)
      requires Writing(bmp, held) && done < |s| && pos + (|s| - done) <= g.size
      ensures 0 < Min(g.block - g.Off(pos), |s| - done) <= |s| - done
      ensures OneBlock(s[done..done + Min(g.block - g.Off(pos), |s| - done)])
    {
      LayoutFramed(Now(bmp));
      Positive(g);
      hide Layer.Layout, Waiting, Geo.Blk, Geo.Off;
      g.Inside(pos) by { SizeInTable(Now(bmp)); }
    }

    lemma WroteOneMore(k: Disk, k1: Disk, k2: Disk, p: nat, s: seq<Byte>, done: nat, put: nat)
      requires done + put <= |s| && Wrote(k, k1, p, s[..done]) && Wrote(k1, k2, p + done, s[done..done + put])
      ensures Wrote(k, k2, p, s[..done + put])
    {
      WroteMore(k, k1, k2, p, s[..done], s[done..done + put]);
      assert s[..done] + s[done..done + put] == s[..done + put];
    }

    /** write1, for a differencing image: partial sectors are copied up, zeros no image holds stay virtual. */
    method Write1(s: seq<Byte>)
      requires Valid() && parent != null && pos + |s| <= g.size
      modifies stream, this`pos, this`footer, bat`decoded, upImages`pos, upBats`decoded, upFiles`pos
      ensures Valid() && pos == old(pos) + |s| && Wrote(old(Line()), Line(), old(pos), s)
      ensures WrittenTo(old(Files(Line())), Files(Line()), g.size, old(pos), s)
      ensures Under() == old(Under()) && footerCopy == Lead(stream.data)
      ensures Grown(old(Top().Held()), old(footer), Top().Held(), footer, Needed(g, Under(), old(pos), s))
      ensures Twins(stream.data) <==> if Needed(g, Under(), old(pos), s) <= old(Top().Held()) then old(Twins(stream.data))
        else CarriesChecksum(footerCopy, CHECKSUM)
    {
      hide *;
      StartWriting();
      UpParts();
      var i: nat, p: nat := 0, pos;
      var bmp: BlockBitmap? := null;
      ghost var held, k, u, h, ft := 0, Line(), Under(), Top().Held(), footer;
      Parts();
      WroteNothing(k, p);
      assert s[..0] == [];
      GrownNothing(p);
      Footers();
      ghost var d := stream.data;
      while i < |s|
        invariant i <= |s| && pos == p + i && Linked() && Writing(bmp, held)
        invariant Wrote(k, NowDisk(bmp), p, s[..i]) && Under() == u
        invariant Grown(h, ft, Now(bmp).Held(), footer, Needed(g, u, p, s[..i]))
        invariant bmp != null ==> fresh(bmp)
        decreases |s| - i
      {
        OneBlockHere(bmp, held, s, i);
        var put: nat := Min(g.block - g.Off(pos), |s| - i);
        ghost var k1, h1, ft1 := NowDisk(bmp), Now(bmp).Held(), footer;
        bmp, held := Write1Round(s[i..i + put], bmp, held);
        WroteOneMore(k, k1, NowDisk(bmp), p, s, i, put);
        GrownOneMore(g, u, p, s, i, put, h, ft, h1, ft1, Now(bmp).Held(), footer);
        i := i + put;
      }
      assert s[..|s|] == s;
      Flush(bmp, held);
      DoneWriting();
      WriteStraight(k, p, s);
      Footers();
      GrownOpens(d, stream.data, h, Top().Held(), Needed(g, u, p, s));
    }

    lemma WriteStraight(k: Disk, p: nat, s: seq<Byte>)
      requires Valid() && k.Valid() && Wrote(k, Line(), p, s)
      ensures WrittenTo(Files(k), Files(Line()), g.size, p, s)
    {
      hide Disk.Valid, Files, WrittenTo;
      WroteTo(k, Line(), p, s);
    }

    /** write, for a dynamic image: blocks on demand, zeros for a block without storage stay virtual. */
    method Write(s: seq<Byte>)
      requires Valid() && parent == null && pos + |s| <= g.size
      modifies stream, this`pos, this`footer, bat`decoded
      ensures Valid() && pos == old(pos) + |s| && Wrote(old(Line()), Line(), old(pos), s)
      ensures WrittenTo(old(Files(Line())), Files(Line()), g.size, old(pos), s)
      ensures Under() == old(Under()) && footerCopy == Lead(stream.data)
      ensures Grown(old(Top().Held()), old(footer), Top().Held(), footer, Needed(g, Under(), old(pos), s))
      ensures Twins(stream.data) <==> if Needed(g, Under(), old(pos), s) <= old(Top().Held()) then old(Twins(stream.data))
        else CarriesChecksum(footerCopy, CHECKSUM)
    {
      hide *;
      StartWriting();
      UpParts();
      var i: nat, p: nat := 0, pos;
      var bmp: BlockBitmap? := null;
      ghost var held, k, u, h, ft := 0, Line(), Under(), Top().Held(), footer;
      Parts();
      WroteNothing(k, p);
      assert s[..0] == [];
      GrownNothing(p);
      Footers();
      ghost var d := stream.data;
      while i < |s|
        invariant i <= |s| && pos == p + i && Linked() && Writing(bmp, held)
        invariant Wrote(k, NowDisk(bmp), p, s[..i]) && Under() == u
        invariant Grown(h, ft, Now(bmp).Held(), footer, Needed(g, u, p, s[..i]))
        invariant bmp != null ==> fresh(bmp)
        decreases |s| - i
      {
        OneBlockHere(bmp, held, s, i);
        var put: nat := Min(g.block - g.Off(pos), |s| - i);
        ghost var k1, h1, ft1 := NowDisk(bmp), Now(bmp).Held(), footer;
        bmp, held := WriteRound(s[i..i + put], bmp, held);
        WroteOneMore(k, k1, NowDisk(bmp), p, s, i, put);
        GrownOneMore(g, u, p, s, i, put, h, ft, h1, ft1, Now(bmp).Held(), footer);
        i := i + put;
      }
      assert s[..|s|] == s;
      Flush(bmp, held);
      DoneWriting();
      WriteStraight(k, p, s);
      Footers();
      GrownOpens(d, stream.data, h, Top().Held(), Needed(g, u, p, s));
    }

    // ---- merging ----

    /** Merging from the child disk k has come to sector j of block i. */
    ghost predicate Merging(k: Disk, i: nat, j: nat)
      reads this`footer, upImages`footer, bat`decoded, upBats`decoded, stream`data, upFiles`data
    {
      && parent != null && Valid() && k.Over? && k.under.Over? && Top() == k.top && Merged(k, Under(), i, j)
      && Under().under == k.under.under && Took(k, Under().top, Taken(k, i, j))
    }

    lemma LineIs()
      requires Linked()
      ensures Line() == Over(Top(), Under())
    {
    }

    lemma MergingParts(k: Disk, i: nat, j: nat)
      requires Merging(k, i, j)
      ensures Valid() && k.top == Top() && Top().Layout() && g.Valid() && g.block > 0
      ensures Merged(k, Under(), i, j) && k.Over? && k.under.Over? && parent.Under() == k.under.under
      ensures Under() == Over(parent.Top(), k.under.under) && Took(k, parent.Top(), Taken(k, i, j))
    {
      hide Took, Taken, Merged;
      LayoutFramed(Top());
      Positive(g);
      UpParts();
      parent.LineIs();
    }

    lemma MergingAgain(k: Disk, i: nat, j: nat)
      requires Linked() && bat.Agrees() && FooterIs(stream.data, footer, footerCopy) && Top().Layout()
      requires parent != null && parent.Valid() && SameShape(g, parent.g) && Kind(stream.data) == 4
      requires k.Over? && k.under.Over? && k.top == Top() && Merged(k, Under(), i, j) && parent.Under() == k.under.under
      requires Took(k, parent.Top(), Taken(k, i, j))
      ensures Merging(k, i, j)
    {
      hide Layer.Layout, Merged, FooterIs, BE32, SameShape;
      UpAgain();
      assert Under() == parent.Line() && parent.Line().Valid();
      assert Line().Valid() by { assert SameShape(Top().g, parent.Top().g); }
      Whole();
    }

    lemma KindHere()
      requires Valid() && parent != null
      ensures Kind(stream.data) == 4 && SameShape(g, parent.g)
    {
    }

    /** One marked sector, read here and written to the parent. */
    method MergeSector(blkoff: nat, i: nat, j: nat, ghost k: Disk)
      requires Merging(k, i, j) && i < g.entries && Top().Has(i) && blkoff == Top().Entry(i) && j < 8 * g.Bm() &&
          Top().BitOf(i, j)
      modifies stream`pos, parent.stream, parent`footer, parent.upFiles`pos, upImages`pos, upBats`decoded
      ensures Merging(k, i, j + 1)
    {
      hide *;
      MergingParts(k, i, j);
      Parts();
      UpParts();
      KindHere();
      TopIs();
      MarkedSector(Top(), i, j);
      BaseIs(Top(), i);
      parent.Footers();
      parent.TopIs();
      ghost var pk, b := parent.Line(), parent.Top();
      stream.Seek(blkoff * 512 + g.Bm() + j * 512);
      var s := stream.Read(512);
      SectorSize(Top(), i, j, s);
      StoreInParent(g.Pos(i, 512 * j), s);
      MergeCopied(k, pk, parent.Line(), i, j, s);
      SamePos(g, parent.g, i, 512 * j);
      SectorNeeded(k, parent.g, i, j, s);
      parent.Footers();
      parent.TopIs();
      TookMore(k, b, parent.Top(), i, j);
      LineAgain();
      MergingAgain(k, i, j + 1);
    }

    /** seek and write in the parent. */
    method StoreInParent(at: nat, s: seq<Byte>)
      requires Linked() && parent != null && parent.Valid() && at + |s| <= parent.g.size
      modifies parent.stream, parent`footer, parent.upFiles`pos, upImages`pos, upBats`decoded
      ensures parent.Valid() && Wrote(old(parent.Line()), parent.Line(), at, s) && parent.Under() == old(parent.Under())
      ensures parent.footerCopy == Lead(parent.stream.data)
      ensures Grown(old(parent.Top().Held()), old(parent.footer), parent.Top().Held(), parent.footer,
          Needed(parent.g, parent.Under(), at, s))
    {
      hide Image.Valid, Image.Under, Image.Line, Image.Top, Wrote, Grown, Needed, Layer.Held, Packed, Lead, Twins;
      hide CarriesChecksum;
      UpSets();
      parent.UpSets();
      var ok := parent.Seek(at, 0);
      parent.WriteAny(s);
    }

    /** write as the image's kind has it. */
    method WriteAny(s: seq<Byte>)
      requires Valid() && pos + |s| <= g.size
      modifies stream, this`pos, this`footer, bat`decoded, upImages`pos, upBats`decoded, upFiles`pos
      ensures Valid() && pos == old(pos) + |s| && Wrote(old(Line()), Line(), old(pos), s)
      ensures WrittenTo(old(Files(Line())), Files(Line()), g.size, old(pos), s)
      ensures Under() == old(Under()) && footerCopy == Lead(stream.data)
      ensures Grown(old(Top().Held()), old(footer), Top().Held(), footer, Needed(g, Under(), old(pos), s))
      ensures Twins(stream.data) <==> if Needed(g, Under(), old(pos), s) <= old(Top().Held()) then old(Twins(stream.data))
        else CarriesChecksum(footerCopy, CHECKSUM)
    {
      hide *;
      if parent == null {
        Write(s);
      } else {
        Write1(s);
      }
    }

    lemma LineAgain()
      requires Linked() && parent != null && parent.Linked()
      ensures Under() == parent.Line()
    {
    }

    /** The sectors of one block. */
    method MergeBlock(blkoff: nat, i: nat, ghost k: Disk) returns (copied: nat)
      requires Merging(k, i, 0) && i < g.entries && Top().Has(i) && blkoff == Top().Entry(i)
      modifies stream`pos, parent.stream, parent`footer, parent.upFiles`pos, upImages`pos, upBats`decoded
      ensures Merging(k, i + 1, 0) && copied == SectorsIn(k.top, i, 8 * g.Bm())
    {
      hide Merged, Layer.Layout, Layer.BitOf, BE32, BlockBitmap.Test, Image.Cached, Took, Taken, Weighs, Image.Merging;
      hide Image.Valid, Layer.Held;
      MergingParts(k, i, 0);
      Parts();
      UpSets();
      var bmp := LoadForRead(blkoff, null) by { NoCache(); }
      var j := 0;
      copied := 0;
      while j < 8 * g.Bm()
        invariant j <= 8 * g.Bm() && Merging(k, i, j) && Cached(bmp) && copied == SectorsIn(k.top, i, j)
        invariant k.top == Top()
      {
        var more := MergeRound(blkoff, i, j, bmp, k);
        MergingParts(k, i, j + 1);
        copied := copied + more;
        j := j + 1;
      }
      MergingParts(k, i, j);
      AllSectors(g);
      MergeNext(k, Under(), i, j);
      TakenNext(k, i);
      MergingSame(k, i, j, i + 1, 0);
    }

    /** One sector, if it is marked. */
    method MergeRound(blkoff: nat, i: nat, j: nat, bmp: BlockBitmap, ghost k: Disk) returns (copied: nat)
      requires Merging(k, i, j) && i < g.entries && Top().Has(i) && blkoff == Top().Entry(i) == bmp.i && j < 8 * g.Bm()
      requires Cached(bmp) && k.Over? && k.top == Top()
      modifies stream`pos, parent.stream, parent`footer, parent.upFiles`pos, upImages`pos, upBats`decoded
      ensures Merging(k, i, j + 1) && Cached(bmp) && copied == if k.top.BitOf(i, j) then 1 else 0
    {
      hide Merged, Layer.Layout, Layer.BitOf, BE32, BlockBitmap.Test, Image.Cached, Took, Taken, Weighs, Image.Merging;
      hide Image.Valid, Layer.Held, Image.Memo, Image.UpMemo, FooterIs;
      MergingParts(k, i, j);
      Parts();
      UpSets();
      BitRead(i, j, bmp);
      TakenMore(k, i, j);
      copied := 0;
      if bmp.Test(j) {
        MergeSector(blkoff, i, j, k);
        copied := 1;
      } else {
        MergeAbsent(k, Under(), i, j);
        MergingSame(k, i, j, i, j + 1);
      }
    }

    /** Opening the file again works exactly if every footer of the line is the same as its copy. */
    method Reopens() returns (ok: bool)
      requires Valid()
      modifies stream`pos, upImages`pos, upFiles`pos
      ensures Valid() && ok == Line().Opens()
      decreases upImages
    {
      hide *;
      Parts();
      UpParts();
      FileSize();
      stream.Seek(|stream.data| - 512);
      var ft := stream.Read(512);
      stream.Seek(0);
      var copy := stream.Read(512);
      TwinsRead(stream.data);
      OpensHere();
      ok := ft == copy;
      if ok && parent != null {
        ok := parent.Reopens();
      }
      UpAgain();
      Whole();
    }

    lemma FileSize()
      requires Valid()
      ensures |stream.data| >= 512
    {
      Product(Top().Used(g.entries), g.Raw());
    }

    lemma Footers()
      requires Valid()
      ensures Trail(stream.data) == footer && Lead(stream.data) == footerCopy && Kin(stream.data)
    {
      assert Top().Sealed();
    }

    lemma OpensHere()
      requires Linked()
      ensures Line().Opens() <==> Twins(stream.data) && Under().Opens()
      ensures Disk.Nothing.Opens()
    {
    }

    lemma MergeStarts(k: Disk)
      requires Valid() && parent != null && k == Line()
      ensures Merging(k, 0, 0) && k.Over? && k.under.Over?
    {
      hide Layer.Layout, FooterIs;
      UpParts();
      parent.LineIs();
      MergeStart(k);
      TookNothing(k);
    }

    lemma MergingHere(k: Disk, i: nat)
      requires Valid() && parent != null && k.Over? && k.under.Over? && k.top == Top() && Merged(k, Under(), i, 0)
      requires parent.Under() == k.under.under && Took(k, parent.Top(), Taken(k, i, 0))
      ensures Merging(k, i, 0)
    {
    }

    lemma MergingSame(k: Disk, i: nat, j: nat, i': nat, j': nat)
      requires Merging(k, i, j) && Merged(k, Under(), i', j') && Taken(k, i', j') == Taken(k, i, j)
      ensures Merging(k, i', j')
    {
    }

    lemma BitRead(i: nat, j: nat, bmp: BlockBitmap)
      requires Valid() && Cached(bmp) && i < g.entries && bmp.i == Top().Entry(i) && Top().Has(i) && j < 8 * g.Bm()
      ensures |bmp.bmp| == g.Bm() && bmp.Test(j) == Top().BitOf(i, j)
    {
      BlockFits(Top(), i);
      MapRead(Top(), i, bmp.bmp, j);
    }

    /** One round of merge for a block this image holds: the parent is opened again and gets its sectors. */
    method MergeHeld(blkoff: nat, i: nat, ghost k: Disk) returns (ok: bool, copied: nat)
      requires Merging(k, i, 0) && k.Over? && k.under.Over? && k.top == Top() && i < g.entries && Top().Has(i) && blkoff == Top().Entry(i)
      requires forall j: nat {:trigger Stuck(k, j)} :: j < i ==> !Stuck(k, j)
      modifies stream`pos, parent.stream, parent`footer, parent.upFiles`pos, upImages`pos, upBats`decoded
      ensures ok <==> !Stuck(k, i)
      ensures if ok then Merging(k, i + 1, 0) && copied == SectorsIn(k.top, i, 8 * g.Bm()) else Merging(k, i, 0)
    {
      hide *;
      MergingParts(k, i, 0);
      Parts();
      UpParts();
      TopIs();
      StuckHere(k, parent.Top(), i);
      ok := parent.Reopens();
      UpAgain();
      Whole();
      MergingHere(k, i);
      copied := 0;
      if ok {
        copied := MergeBlock(blkoff, i, k);
      }
    }

    /**
     * merge: every sector this image holds goes to the parent, which is opened again for every block; none is done
     * without a parent.
     */
    method Merge() returns (r: Outcome)
      requires Valid()
      modifies stream`pos, bat`decoded, upImages`pos, upBats`decoded, upFiles`pos
      modifies if parent == null then {} else {parent.stream}
      modifies if parent == null then {} else {parent}`footer
      ensures r.NoParent? <==> parent == null
      ensures parent != null ==> Valid() && old(Line().under.Over?)
      ensures r.MergedAll? ==> parent.Line().View() == old(Line().View())
      ensures r.MergedAll? ==> WrittenTo(old(Files(Line())), Files(parent.Line()), g.size, 0, [])
      ensures r.MergedAll? ==> r.sectors == SectorsUpTo(old(Top()), g.entries) && r.blocks == BlocksUpTo(old(Top()), g.entries)
      ensures r.Unopened? ==> Merged(old(Line()), Under(), r.block, 0)
      ensures r.Unopened? ==> Stuck(old(Line()), r.block) && forall i: nat :: i < r.block ==> !Stuck(old(Line()), i)
      ensures r.MergedAll? ==> forall i: nat :: i < g.entries ==> !Stuck(old(Line()), i)
    {
      hide Image.Valid, Image.Memo, Image.UpMemo, Image.Linked, Image.Under, Image.Line, Disk.Valid;
      hide Disk.Shows, Merged, IsSector, Wrote, Layer.Layout, Layer.BitOf, BE32, Geo.Pos, FooterIs, ReadAt;
      hide IsSet, Image.Merging, Stuck, Took, Taken;
      if parent == null {
        return NoParent;
      }
      Parts();
      UpParts();
      LineIs();
      parent.LineIs();
      ghost var k := Line();
      MergeStarts(k);
      var i, sectors, blocks := 0, 0, 0;
      while i < g.entries
        invariant i <= g.entries && Merging(k, i, 0) && k.top == Top() && k.Over? && k.under.Over?
        invariant sectors == SectorsUpTo(k.top, i) && blocks == BlocksUpTo(k.top, i)
        invariant forall j: nat {:trigger Stuck(k, j)} :: j < i ==> !Stuck(k, j)
      {
        MergingParts(k, i, 0);
        var blkoff := Lookup(i);
        MergingHere(k, i);
        if blkoff == UNUSED {
          MergeSkip(k, Under(), i);
          TakenNext(k, i);
          NotStuck(k, i);
          MergingSame(k, i, 0, i + 1, 0);
        } else {
          var ok, copied := MergeHeld(blkoff, i, k);
          if !ok {
            MergingParts(k, i, 0);
            return Unopened(i);
          }
          sectors := sectors + copied;
          blocks := blocks + if copied > 0 then 1 else 0;
        }
        MergingParts(k, i + 1, 0);
        i := i + 1;
      }
      MergingParts(k, i, 0);
      MergeEnd(k, Under());
      UpParts();
      MergeStraight(k);
      r := MergedAll(sectors, blocks);
    }

    lemma MergeStraight(k: Disk)
      requires Valid() && parent != null && parent.Line() == Under() && k.Valid() && k.Over? && k.top.g == g
      requires parent.Line().View() == k.View()
      ensures WrittenTo(Files(k), Files(parent.Line()), g.size, 0, [])
    {
      hide Files, WrittenTo, Disk.View;
      UpParts();
      SameTo(k, parent.Line());
    }

    // ---- growing ----

    /** A larger size whose table and blocks still have sector numbers. */
    ghost predicate CanGrow(size: nat) {
      && size % 512 == 0 && size < 0x1_0000_0000_0000_0000
      && g.block > 0 && g.entries <= Larger(g, size).entries
      && NewStart(size) + Larger(g, size).entries * g.Raw() <= 512 * UNUSED
    }

    /** Where blocks may start behind the longer table. */
    ghost function NewStart(size: nat): int
      requires g.block > 0
    {
      start + Larger(g, size).TableSize() - g.TableSize()
    }

    /** expand: the container is rewritten for a larger disk; the image has to be opened again. */
    method Expand(newsize: nat, uuid: seq<Byte>) returns (ok: bool)
      requires Valid() && |uuid| == 16 && (newsize > g.size ==> CanGrow(newsize))
      modifies stream, bat`decoded
      ensures ok <==> parent == null && newsize > g.size
      ensures !ok ==> stream.data == old(stream.data)
      ensures ok ==> g.block > 0 && NewStart(newsize) >= 0
      ensures ok ==> Grew(old(Top()), Layer(stream.data, Larger(g, newsize), NewStart(newsize)))
      ensures ok ==> TitledAs(old(stream.data), stream.data, newsize, uuid, CeilDiv(newsize, g.block))
      ensures ok && old(Signed(stream.data)) ==> Signed(stream.data)
      ensures ok ==> ExtendedTo(old(stream.data), stream.data, g.size, newsize)
      ensures ok ==> MadeRoom(g.block, g.entries, CeilDiv(newsize, g.block), newsize, |stream.data| - |old(stream.data)|)
    {
      hide MadeRoom, ExtendedTo, TitledAs, Signed, Inserted, Renumbered, Retitled, NewFooter, NewHeader, Grew, Kin;
      KindIs();
      Parts();
      if BE32(footer, 0x3C) != 3 || newsize <= g.size {
        return false;
      }
      GrowFacts(newsize);
      ghost var a := Top();
      var entries := CeilDiv(newsize, g.block);
      LargerIs(newsize);
      var delta := (4 * entries + 511) / 512 * 512 - g.TableSize();
      ghost var x := MoveBlocks(delta);
      ghost var y := stream.data;
      Lengthened(a, x, y, delta);
      var h := Retitle(newsize, entries, uuid);
      Expanded(a, x, y, h, delta, newsize, uuid);
      TitlesNow(a, x, y, h, delta, newsize, uuid);
      GrewFile(a, Layer(stream.data, Larger(g, newsize), NewStart(newsize)));
      RoomIs(g, newsize);
      return true;
    }

    /** Inserts table sectors and renumbers the blocks behind them. */
    method MoveBlocks(delta: nat) returns (ghost x: seq<Byte>)
      requires bat.stream == stream && bat.offset == g.table && bat.size == g.entries && bat.Agrees()
      requires delta % 512 == 0 && g.table + g.TableSize() < |stream.data|
      requires forall i {:trigger Top().Has(i)} :: 0 <= i < g.entries && Top().Has(i) ==> Top().Entry(i) + delta / 512 <= UNUSED
      modifies stream, bat`decoded
      ensures Inserted(old(stream.data), x, g.table + g.TableSize(), delta, Some(0xFF))
      ensures Renumbered(old(Top()), x, stream.data, delta / 512, g.entries)
    {
      hide Inserted, Renumbered, MemoOf, BE32;
      ghost var a := Top();
      x := stream.data;
      NothingMoved(a, 0);
      if delta != 0 {
        SlotsBefore(a);
        Move(stream, g.table + g.TableSize(), delta, 2097152, Some(0xFF));
        x := stream.data;
        MovedMemo(a, x, delta);
        LongEnough(a, x, delta);
        Renumber(a, x, delta / 512);
      }
    }

    lemma KindIs()
      requires Valid()
      ensures BE32(footer, 0x3C) == 3 <==> parent == null
    {
      FooterKind(stream.data) by { Parts(); assert Top().Sealed(); }
      hide BE32, Layer.Layout, FooterIs;
    }

    lemma GrowFacts(size: nat)
      requires Valid() && CanGrow(size) && parent == null
      ensures g.Valid() && Top().Framed() && Top().Padded() && start + 512 <= |stream.data| && |stream.data| >= 2048
      ensures Larger(g, size).TableSize() >= g.TableSize() && (Larger(g, size).TableSize() - g.TableSize()) % 512 == 0
      ensures g.table + g.TableSize() <= start && Over(Top(), Nothing).Valid()
      ensures Larger(g, size).entries <= UNUSED && Top().Sealed()
      ensures |footer| == 512 && size < 0x1_0000_0000_0000_0000 && g.block > 0 && NewStart(size) >= 0
      ensures forall i {:trigger Top().Has(i)} :: 0 <= i < g.entries && Top().Has(i) ==>
        Top().Entry(i) + (Larger(g, size).TableSize() - g.TableSize()) / 512 <= UNUSED
    {
      var a := Top();
      assert Line().Valid() && Under() == Nothing;
      LayoutFramed(a);
      ValidGeo(a);
      Product(a.Used(g.entries), g.Raw());
      hide Disk.Valid, Layer.Disjoint, Layer.AllMarked, BE32;
      LargerValid(g, size);
      ManyEntries(Larger(g, size).entries, g.Raw()) by { RawSectors(g); }
      forall i {:trigger a.Has(i)} | 0 <= i < g.entries && a.Has(i)
        ensures a.Entry(i) + (Larger(g, size).TableSize() - g.TableSize()) / 512 <= UNUSED
      {
        BlockFits(a, i);
        UsedBound(a, i, g.entries);
        Mono(a.Used(g.entries), Larger(g, size).entries, g.Raw());
        FewerSectors(a.Entry(i), Larger(g, size).TableSize() - g.TableSize());
      }
    }

    lemma LargerIs(size: nat)
      requires g.block > 0
      ensures (4 * CeilDiv(size, g.block) + 511) / 512 * 512 == Larger(g, size).TableSize()
      ensures CeilDiv(size, g.block) == Larger(g, size).entries
    {
    }

    lemma MovedMemo(a: Layer, x: seq<Byte>, delta: nat)
      requires stream.data == x && bat.stream == stream && bat.offset == a.g.table && bat.size == a.g.entries
      requires MemoOf(bat.decoded, a.d, a.g.table, a.g.entries)
      requires Inserted(a.d, x, a.g.table + a.g.TableSize(), delta, Some(0xFF))
      ensures bat.Agrees() && Renumbered(a, x, x, delta / 512, 0)
    {
      RenumberStart(a, x, delta, Some(0xFF), delta / 512);
      assert 4 * a.g.entries <= a.g.TableSize();
      hide At, MemoOf, Geo.TableSize;
      forall k {:trigger At(x, k)} | a.g.table <= k < a.g.table + 4 * a.g.entries ensures At(x, k) == At(a.d, k) {
      }
      MemoKept(bat.decoded, a.d, x, a.g.table, a.g.entries);
    }

    /** Entries in use move on by deltas sectors. */
    method Renumber(ghost a: Layer, ghost x: seq<Byte>, deltas: nat)
      requires bat.stream == stream && bat.offset == g.table && bat.size == g.entries && bat.Agrees()
      requires a.g == g && a.Slot(g.entries) <= |x| && Renumbered(a, x, stream.data, deltas, 0)
      requires forall i {:trigger a.Has(i)} :: 0 <= i < g.entries && a.Has(i) ==> a.Entry(i) + deltas <= UNUSED
      modifies stream, bat`decoded
      ensures Renumbered(a, x, stream.data, deltas, g.entries)
    {
      hide Renumbered, MemoOf, BE32, Overwrite, Pack32BE;
      var i := 0;
      while i < bat.size
        invariant i <= bat.size && bat.Agrees() && Renumbered(a, x, stream.data, deltas, i)
      {
        RenumberAt(a, x, stream.data, deltas, i);
        var e := bat.Get(i);
        if e == UNUSED {
          RenumberSkip(a, x, stream.data, deltas, i);
        } else {
          RenumberOne(a, x, stream.data, deltas, i);
          bat.Set(i, e + deltas);
        }
        i := i + 1;
      }
    }

    /** New footer and header at the front, the footer again at the end. */
    method Retitle(newsize: nat, entries: nat, uuid: seq<Byte>) returns (h: seq<Byte>)
      requires |stream.data| >= 2048 && |footer| == 512 && |uuid| == 16 && newsize < 0x1_0000_0000_0000_0000 &&
          entries <= UNUSED
      modifies stream
      ensures h == ReadAt(old(stream.data), 512, 1024) && |h| == 1024
      ensures Retitled(old(stream.data), stream.data, NewFooter(footer, newsize, uuid), NewHeader(h, entries))
    {
      hide Overwrite, NewFooter, NewHeader, Retitled;
      HeaderOf(stream.data, ReadAt(stream.data, 512, 1024));
      hide ReadAt;
      ghost var y := stream.data;
      stream.Seek(512);
      h := stream.Read(1024);
      var ft := NewFooter(footer, newsize, uuid);
      Retitling(y, ft, NewHeader(h, entries));
      stream.Seek(0);
      stream.Write(ft);
      stream.Write(NewHeader(h, entries));
      stream.Seek(|stream.data| - 512);
      stream.Write(ft);
    }

    lemma TitlesNow(a: Layer, x: seq<Byte>, y: seq<Byte>, h: seq<Byte>, delta: int, size: nat, uuid: seq<Byte>)
      requires a.g.Valid() && Kin(a.d) && |a.d| >= 2048 && delta >= 0 && a.g.block > 0
      requires Inserted(a.d, x, a.g.table + a.g.TableSize(), delta, Some(0xFF)) &&
          Renumbered(a, x, y, delta / 512, a.g.entries)
      requires footer == Trail(a.d) && |h| == 1024 && h == ReadAt(y, 512, 1024) && |uuid| == 16
      requires size < 0x1_0000_0000_0000_0000 && CeilDiv(size, a.g.block) <= UNUSED
      requires Retitled(y, stream.data, NewFooter(footer, size, uuid), NewHeader(h, CeilDiv(size, a.g.block)))
      ensures TitledAs(a.d, stream.data, size, uuid, CeilDiv(size, a.g.block))
      ensures Signed(a.d) ==> Signed(stream.data)
      ensures |stream.data| == |a.d| + delta
    {
      SameLength(y, stream.data, NewFooter(footer, size, uuid), NewHeader(h, CeilDiv(size, a.g.block)));
      hide NewFooter, NewHeader, Retitled, Inserted, Renumbered, Kin, TitledAs, Signed, ReadAt, CeilDiv;
      SameHeader(a, x, y, delta);
      RetitledBytes(a.d, y, stream.data, footer, h, size, uuid, CeilDiv(size, a.g.block));
      if Signed(a.d) {
        StillSigned(a.d, stream.data, size, uuid, CeilDiv(size, a.g.block));
      }
    }

    lemma Expanded(a: Layer, x: seq<Byte>, y: seq<Byte>, h: seq<Byte>, delta: int, size: nat, uuid: seq<Byte>)
      requires a.g == g && a.start == start && Over(a, Nothing).Valid() && a.Framed() && a.Padded() && a.Sealed()
      requires |a.d| >= 2048 && a.start + 512 <= |a.d| && |uuid| == 16 && CanGrow(size) && size > g.size
      requires delta == Larger(g, size).TableSize() - g.TableSize() >= 0 && delta % 512 == 0
      requires Inserted(a.d, x, g.table + g.TableSize(), delta, Some(0xFF)) && Renumbered(a, x, y, delta / 512,
          g.entries)
      requires |footer| == 512 && BE32(footer, 0x3C) == 3 && |h| == 1024 && h == ReadAt(y, 512, 1024)
      requires Larger(g, size).entries <= UNUSED
      requires Retitled(y, stream.data, NewFooter(footer, size, uuid), NewHeader(h, Larger(g, size).entries))
      ensures Grew(a, Layer(stream.data, Larger(g, size), NewStart(size)))
    {
      hide Disk.View, BE32;
      var b := Layer(stream.data, Larger(g, size), NewStart(size));
      ValidGeo(a);
      LargerValid(g, size);
      SameHeader(a, x, y, delta);
      ExpandedTitles(a, y, stream.data, footer, h, uuid, size, b);
      ExpandedRebased(a, x, y, stream.data, NewFooter(footer, size, uuid), NewHeader(h, Larger(g, size).entries),
          delta, b);
      TableFits(a);
      RebasedDisk(a, b, delta);
      SealedGeo(b);
    }
  }

  /** Memo and footer are those of the flushed container as well. */
  lemma SoundMemo(a: Layer, d: seq<Byte>, m: map<nat, nat>, held: nat, base: nat, bits: seq<Byte>,
      footer: seq<Byte>, copy: seq<Byte>)
    requires a.Layout() && Waiting(a, d, held, base, bits)
    requires MemoOf(m, d, a.g.table, a.g.entries) && FooterIs(d, footer, copy)
    ensures MemoOf(m, a.d, a.g.table, a.g.entries) && FooterIs(a.d, footer, copy)
  {
    hide At;
    TableRoom(a);
    LayoutFramed(a);
    assert a.g.table + 4 * a.g.entries <= a.start;
    forall k ensures k < a.start || k >= |d| - 512 ==> At(a.d, k) == At(d, k) {
      if k < a.start || k >= |d| - 512 {
        WaitingAt(a, d, held, base, bits, k);
      }
    }
    hide Layer.Layout, Waiting;
    MemoKept(m, d, a.d, a.g.table, a.g.entries);
    TitlesAre(a.d, footer, copy, d);
  }

  /** The sector a position is in, as place on the disk and in its block. */
  lemma SectorPlace(g: Geo, vpos: nat, i: nat, sec: nat)
    requires g.Valid() && g.Blk(vpos) == i && sec == g.Off(vpos) / 512 && vpos < g.size
    ensures vpos / 512 * 512 == g.Pos(i, 512 * sec) && g.Pos(i, 512 * sec) + 512 <= g.size && 512 * sec + 512 <= g.block
  {
    Positive(g);
    g.Split(vpos);
    Sectors(i, g.block);
    var b, o := i * g.block, g.Off(vpos);
    assert g.Pos(i, 512 * sec) == b + 512 * sec && vpos == b + o;
    hide Geo.Valid;
    SectorOf(b, o, g.block, g.size) by { assert g.Valid(); WholeGeo(g); }
  }

  lemma SectorOf(b: nat, o: nat, block: nat, size: nat)
    requires b % 512 == 0 && block % 512 == 0 && size % 512 == 0 && o < block && b + o < size
    ensures (b + o) / 512 * 512 == b + 512 * (o / 512)
    ensures b + 512 * (o / 512) + 512 <= size && 512 * (o / 512) + 512 <= block
  {
  }

  /** The bytes of an unmarked sector, taken from underneath, are what the disk shows there. */
  lemma CopyCovers(a: Layer, u: Disk, i: nat, sec: nat, s: seq<Byte>)
    requires a.Has(i) && !a.BitOf(i, sec) && |s| == 512 && Fetched(u, a.g.Pos(i, 512 * sec), s)
    requires 512 * sec + 512 <= a.g.block && a.g.Pos(i, 512 * sec) + 512 <= a.g.size
    ensures Covers(a.g, i, sec, 1, 512 * sec, 512) && Ready(a, u, i, sec, 1, 512 * sec, 512)
    ensures Fetched(Over(a, u), a.g.Pos(i, 512 * sec), s)
  {
    hide Layer.BitOf, Layer.Has, Layer.Cell;
    var p := a.g.Pos(i, 512 * sec);
    forall j {:trigger s[j]} | 0 <= j < 512 ensures s[j] == Over(a, u).Shows(p + j) {
      ShowsIn(a, u, i, 512 * sec + j);
      PosPlus(a.g, i, 512 * sec, j);
    }
  }

  lemma StoredLayer(a: Layer, d: seq<Byte>, d': seq<Byte>, b: Layer, u: Disk, i: nat, off: nat, s: seq<Byte>,
      bits: seq<Byte>, bits': seq<Byte>, from: nat, n: nat)
    requires Over(a, u).Valid() && i < a.g.entries && a.Has(i)
    requires Waiting(a, d, i, a.Base(i), bits) && |bits| == a.g.Bm()
    requires d' == Overwrite(d, a.Base(i) + a.g.Bm() + off, s) && Marks(MsbFirst, bits, bits', from, n, false)
    requires b == a.(d := Flushed(d', a.Base(i), bits'))
    requires Covers(a.g, i, from, n, off, |s|) && Ready(a, u, i, from, n, off, |s|)
    ensures Over(b, u).Valid() && Wrote(Over(a, u), Over(b, u), a.g.Pos(i, off), s)
    ensures Waiting(b, d', i, a.Base(i), bits') && b.Entry(i) == a.Entry(i)
    ensures forall sec {:trigger b.BitOf(i, sec)} :: 0 <= sec < 8 * a.g.Bm() ==>
      (b.BitOf(i, sec) <==> from <= sec < from + n || a.BitOf(i, sec))
    ensures b.Held() == a.Held()
  {
    hide Layer.Held;
    assert a.Layout() by { OverParts(a, u); }
    BlockFits(a, i);
    assert Edited(d, d', a, b, i, off, s, bits, bits');
    EditedChanged(d, d', a, b, i, off, s, bits, bits', from, n);
    ChangedDisk(a, b, u, i, from, n, off, s);
    IsTouched(a, b, i, from, n, off, s);
    TouchedEntry(a, b, i, i);
    TouchedHeld(a, b, i);
    AtOverwrite(d, a.Base(i) + a.g.Bm() + off, s, 0);
  }

  lemma TableFirst(a: Layer)
    requires a.Layout()
    ensures a.g.table + 4 * a.g.entries <= a.start
  {
  }

  lemma WaitingSize(a: Layer, d: seq<Byte>, held: nat, base: nat, bits: seq<Byte>)
    requires Waiting(a, d, held, base, bits)
    ensures |a.d| == |d|
  {
  }

  lemma CoversRoom(g: Geo, i: nat, from: nat, n: nat, off: nat, len: nat)
    requires Covers(g, i, from, n, off, len)
    ensures off + len <= g.block
  {
  }

  lemma MarksSize(bits: seq<Byte>, bits': seq<Byte>, from: nat, n: nat)
    requires Marks(MsbFirst, bits, bits', from, n, false)
    ensures |bits'| == |bits|
  {
  }

  lemma OverParts(a: Layer, u: Disk)
    requires Over(a, u).Valid()
    ensures a.Layout() && (u.Nothing? ==> a.Blank()) && u.Valid() && (u.Over? ==> SameShape(a.g, u.top.g))
  {
  }

  lemma StoredMemo(a: Layer, d: seq<Byte>, d': seq<Byte>, m: map<nat, nat>, i: nat, off: nat, s: seq<Byte>,
      footer: seq<Byte>, copy: seq<Byte>)
    requires a.Layout() && i < a.g.entries && a.Has(i) && off + |s| <= a.g.block && |a.d| == |d|
    requires d' == Overwrite(d, a.Base(i) + a.g.Bm() + off, s)
    requires MemoOf(m, d, a.g.table, a.g.entries) && FooterIs(d, footer, copy)
    ensures MemoOf(m, d', a.g.table, a.g.entries) && FooterIs(d', footer, copy)
  {
    hide Layer.Layout, Overwrite, At, MemoOf;
    BlockFits(a, i);
    TableFirst(a);
    var p := a.Base(i) + a.g.Bm() + off;
    hide Layer.Base;
    AtOverwrite(d, p, s, 0);
    forall k {:trigger At(d', k)} | a.g.table <= k < a.g.table + 4 * a.g.entries ensures At(d', k) == At(d, k) {
      AtOverwrite(d, p, s, k);
    }
    MemoKept(m, d, d', a.g.table, a.g.entries);
    forall k | 0 <= k < 512 ensures Foot(d', k) == Foot(d, k) && At(d', k) == At(d, k) {
      AtOverwrite(d, p, s, |d| - 512 + k);
      AtOverwrite(d, p, s, k);
    }
    TitlesAre(d', footer, copy, d);
  }

  /** Marks of block i only get more. */
  ghost predicate MoreBits(a: Layer, b: Layer, i: nat) {
    forall t {:trigger b.BitOf(i, t)} :: 0 <= t < 8 * a.g.Bm() && a.BitOf(i, t) ==> b.BitOf(i, t)
  }

  lemma MoreBitsSame(a: Layer, i: nat)
    ensures MoreBits(a, a, i)
  {
  }

  lemma MoreBitsCopied(a: Layer, b: Layer, i: nat, sec: nat)
    requires forall t {:trigger b.BitOf(i, t)} :: 0 <= t < 8 * a.g.Bm() ==> (b.BitOf(i, t) <==> t == sec || a.BitOf(i, t))
    ensures MoreBits(a, b, i)
  {
  }

  lemma MoreBitsAt(a: Layer, b: Layer, i: nat, t: nat)
    requires MoreBits(a, b, i) && t < 8 * a.g.Bm()
    ensures a.BitOf(i, t) ==> b.BitOf(i, t)
  {
  }

  lemma SameTwice(k: Disk, k1: Disk, k2: Disk)
    requires SameDisk(k, k1) && SameDisk(k1, k2)
    ensures SameDisk(k, k2)
  {
    WroteSame(k, k1, k2, 0, []);
  }

  lemma KnownOver(a: Layer, u: Disk, i: nat)
    ensures Over(a, u).Known(i) == (a.Has(i) || u.Known(i)) && !Disk.Nothing.Known(i)
  {
  }

  lemma ChunkCovers(g: Geo, i: nat, off: nat, len: nat)
    requires g.Valid() && len > 0 && off + len <= g.block && g.Pos(i, off) + len <= g.size
    ensures Covers(g, i, off / 512, (off + len - 1) / 512 - off / 512 + 1, off, len)
    ensures (off + len - 1) / 512 < 8 * g.Bm() && off / 512 <= (off + len - 1) / 512
  {
    SectorInMap(g, off + len - 1);
    PosGrows(g, i, 512 * ((off + len - 1) / 512), off + len - 1);
    PosPlus(g, i, off, len - 1);
    hide Geo.Valid, Geo.Bm, Geo.Pos;
  }

  /** b holds the disk of a, followed by zeros, in a container that opens with b's geometry. */
  ghost predicate Grew(a: Layer, b: Layer) {
    && Over(b, Nothing).Valid() && Twins(b.d) && GeoIn(b.d) == b.g && b.g.size >= a.g.size
    && Over(b, Nothing).View() == Over(a, Nothing).View() + Zeros(b.g.size - a.g.size)
  }

  lemma GrewFile(a: Layer, b: Layer)
    requires Over(a, Nothing).Valid() && Grew(a, b)
    ensures ExtendedTo(a.d, b.d, a.g.size, b.g.size)
  {
    hide Disk.Valid, Disk.View;
    ExtendedZeros(a, b);
  }

  lemma ManyEntries(n: nat, raw: nat)
    requires raw >= 1024 && n * raw <= 512 * UNUSED
    ensures n <= UNUSED
  {
    Mono(1024, raw, n);
  }

  lemma FewerSectors(e: nat, delta: nat)
    requires e * 512 + delta <= 512 * UNUSED
    ensures e + delta / 512 <= UNUSED
  {
  }

  lemma RenumberAt(a: Layer, x: seq<Byte>, y: seq<Byte>, deltas: nat, i: nat)
    requires Renumbered(a, x, y, deltas, i) && i < a.g.entries
    ensures |y| == |x| && BE32(y, a.g.table + 4 * i) == a.Entry(i)
  {
    assert a.g.table + 4 * i == a.Slot(i);
  }

  /** The header has not changed when the titles are written. */
  lemma SameHeader(a: Layer, x: seq<Byte>, y: seq<Byte>, delta: nat)
    requires a.g.Valid() && |a.d| >= 2048
    requires Inserted(a.d, x, a.g.table + a.g.TableSize(), delta, Some(0xFF)) &&
        Renumbered(a, x, y, delta / 512, a.g.entries)
    ensures ReadAt(y, 512, 1024) == ReadAt(a.d, 512, 1024)
  {
    hide BE32;
    forall k | 512 <= k < 1536 ensures y[k] == a.d[k] {
      assert At(y, k) == At(x, k) && At(x, k) == At(a.d, k);
    }
  }

  lemma SealedGeo(b: Layer)
    requires b.Sealed()
    ensures GeoIn(b.d) == b.g
  {
  }

  lemma SlotsBefore(a: Layer)
    ensures a.Slot(a.g.entries) <= a.g.table + a.g.TableSize()
  {
  }

  lemma LongEnough(a: Layer, x: seq<Byte>, delta: nat)
    requires Inserted(a.d, x, a.g.table + a.g.TableSize(), delta, Some(0xFF))
    ensures |x| == |a.d| + delta
  {
  }

  lemma Lengthened(a: Layer, x: seq<Byte>, y: seq<Byte>, delta: nat)
    requires Inserted(a.d, x, a.g.table + a.g.TableSize(), delta, Some(0xFF)) &&
        Renumbered(a, x, y, delta / 512, a.g.entries)
    ensures |y| == |a.d| + delta
  {
  }

  lemma TableFits(a: Layer)
    requires a.Framed()
    ensures a.g.table + a.g.TableSize() <= a.start
  {
  }

  lemma SamePos(g: Geo, h: Geo, i: nat, o: nat)
    requires h.block == g.block
    ensures h.Pos(i, o) == g.Pos(i, o)
  {
  }

  lemma BaseIs(a: Layer, i: nat)
    ensures a.Base(i) == a.Entry(i) * 512
  {
    hide BE32;
  }

  lemma SectorSize(a: Layer, i: nat, j: nat, s: seq<Byte>)
    requires IsSector(a, i, j, s)
    ensures |s| == 512
  {
  }

  lemma AllSectors(g: Geo)
    requires g.Valid()
    ensures forall o {:trigger o / 512} :: 0 <= o < g.block ==> o / 512 < 8 * g.Bm()
  {
    forall o | 0 <= o < g.block ensures o / 512 < 8 * g.Bm() {
      SectorInMap(g, o);
    }
  }

  /** The waiting bitmap still belongs to its block. */
  lemma AppendedWaits(a: Layer, b: Layer, d: seq<Byte>, held: nat, base: nat, bits: seq<Byte>, i: nat, d': seq<Byte>)
    requires a.Layout() && Waiting(a, d, held, base, bits) && Appended(a, b, i) && i < a.g.entries && !a.Has(i)
    requires b.d == Flushed(d', base, bits)
    ensures Waiting(b, d', held, base, bits)
  {
    hide BE32;
    AtOverwrite(d', base, bits, 0);
    hide Overwrite;
    if bits != [] {
      BlockFits(a, held);
      AppendedEntry(a, b, i, held) by { LayoutFramed(a); }
    }
  }

  lemma SectorOrder(offset: nat, got: nat)
    requires got > 0
    ensures offset / 512 <= (offset + got - 1) / 512
  {
  }

  lemma Patched(offset: nat, sec: nat, got: nat, part: seq<Byte>)
    requires From(offset, sec) < To(offset, sec, got) <= got && |part| == To(offset, sec, got) - From(offset, sec)
    ensures From(offset, sec) + |part| + (got - To(offset, sec, got)) == got
  {
  }

  lemma Mins(a: int, b: int)
    requires a > 0 && b > 0
    ensures 0 < Min(a, b) <= a && Min(a, b) <= b
  {
  }

  lemma NotStuck(k: Disk, i: nat)
    requires k.Over? && k.under.Over? && !k.top.Has(i)
    ensures !Stuck(k, i)
  {
  }

  lemma TwinsRead(d: seq<Byte>)
    requires |d| >= 512
    ensures Twins(d) <==> ReadAt(d, |d| - 512, 512) == ReadAt(d, 0, 512)
  {
    assert ReadAt(d, |d| - 512, 512) == Trail(d) && ReadAt(d, 0, 512) == Lead(d);
  }

  ghost function LineOf(i: Image?): Disk
    requires i != null ==> i.Linked()
    reads if i == null then {} else {i.stream}`data
    reads if i == null then {} else i.upFiles`data
  {
    if i == null then Nothing else i.Line()
  }

  /** The footer in memory is the one at the end of the file, its copy the one in sector 0. */
  ghost predicate FooterIs(d: seq<Byte>, footer: seq<Byte>, copy: seq<Byte>) { footer == Trail(d) && copy == Lead(d) }

  lemma GrownOneMore(g: Geo, u: Disk, p: nat, s: seq<Byte>, done: nat, put: nat, h: set<nat>, ft: seq<Byte>,
      h1: set<nat>, ft1: seq<Byte>, h2: set<nat>, ft2: seq<Byte>)
    requires done + put <= |s| && Grown(h, ft, h1, ft1, Needed(g, u, p, s[..done]))
    requires Grown(h1, ft1, h2, ft2, Needed(g, u, p + done, s[done..done + put]))
    ensures Grown(h, ft, h2, ft2, Needed(g, u, p, s[..done + put]))
  {
    hide Grown, Needed;
    assert s[..done] + s[done..done + put] == s[..done + put];
    NeededMore(g, u, p, s[..done], s[done..done + put]);
    GrownMore(h, ft, h1, ft1, h2, ft2, Needed(g, u, p, s[..done]), Needed(g, u, p + done, s[done..done + put]));
  }

  lemma FooterSize(d: seq<Byte>, footer: seq<Byte>, copy: seq<Byte>)
    requires FooterIs(d, footer, copy)
    ensures |footer| == 512 && |copy| == 512
  {
  }

  lemma InHeld(a: Layer, i: nat)
    requires i < a.g.entries
    ensures i in a.Held() <==> a.Has(i)
    ensures a.Has(i) <==> a.Entry(i) != UNUSED
  {
    hide BE32;
  }

  lemma TitlesAre(d: seq<Byte>, footer: seq<Byte>, copy: seq<Byte>, was: seq<Byte>)
    requires |footer| == 512 && copy == Lead(was)
    requires forall k :: 0 <= k < 512 ==> Foot(d, k) == footer[k] && At(d, k) == At(was, k)
    ensures FooterIs(d, footer, copy)
  {
    hide Foot, At;
    assert Trail(d) == footer && Lead(d) == Lead(was);
  }

  /** The footer in the last sector, the header in the second and third. */
  method Headers(stream: File) returns (ft: seq<Byte>, copy: seq<Byte>, geo: Geo)
    requires |stream.data| >= 2048 && Twins(stream.data)
    modifies stream`pos
    ensures geo == GeoIn(stream.data) && FooterIs(stream.data, ft, copy)
  {
    hide BE32;
    stream.Seek(|stream.data| - 512);
    ft := stream.Read(512);
    stream.Seek(0);
    copy := stream.Read(512);
    var head := stream.Read(1024);
    LeadRead(stream.data);
    HeaderRead(stream.data, ft, head);
    geo := Geo(BE64(ft, 0x30), BE32(head, 0x20), BE64(head, 0x10), BE32(head, 0x1C));
  }

  lemma OpenFacts(a: Layer, u: Disk)
    requires Over(a, u).Valid()
    ensures |a.d| >= 2048 && Verdict(Seen(a.d, a.g.table, a.g.entries, a.g.block)) >= 0
  {
    LaidOutAccepted(a);
    Product(a.Used(a.g.entries), a.g.Raw());
  }

  lemma OpenLine(i: Image?)
    requires i != null ==> i.Valid()
    ensures i != null ==> i.Linked() && i !in i.upImages
  {
  }

  lemma LeadRead(d: seq<Byte>)
    requires |d| >= 512
    ensures ReadAt(d, 0, 512) == Lead(d)
  {
  }

  /** The last sector and the two after the first give footer and geometry. */
  lemma HeaderRead(d: seq<Byte>, ft: seq<Byte>, head: seq<Byte>)
    requires |d| >= 2048 && ft == ReadAt(d, |d| - 512, 512) && head == ReadAt(d, 512, 1024)
    requires Twins(d)
    ensures ft == Trail(d)
    ensures Geo(BE64(ft, 0x30), BE32(head, 0x20), BE64(head, 0x10), BE32(head, 0x1C)) == GeoIn(d)
  {
    assert ft == Trail(d) == Lead(d);
    forall k | 0x30 <= k < 0x38 ensures At(ft, k) == At(d, k) {
    }
    forall k | 0 <= k < 1024 ensures At(head, k) == At(d, 512 + k) {
    }
  }

  lemma TableRoom(a: Layer)
    requires a.Layout()
    ensures a.Slot(a.g.entries) <= |a.d|
  {
    Product(a.Used(a.g.entries), a.g.Raw());
  }
}
