/** The sector cache of a disk as a value: what it holds, and the flat disk it stands for. */
module CacheState {
  import opened Bytes

  /** File, slot buffer, next free slot, sector-to-slot and slot-to-sector tables, sectors not yet in the file. */
  datatype Cache = Cache(file: seq<Byte>, raw: seq<Byte>, index: nat, table: map<nat, nat>, tableR: map<nat, nat>,
      dirties: set<nat>) {

    /** The two tables are inverse to each other. */
    ghost predicate Inverse() {
      && (forall s {:trigger table[s]} {:trigger s in table} :: s in table ==> table[s] in tableR && tableR[table[s]] == s)
      && (forall v {:trigger tableR[v]} {:trigger v in tableR} :: v in tableR ==> tableR[v] in table && table[tableR[v]] == v)
    }

    /** Slots are whole sectors below the next free one. */
    ghost predicate Slots() {
      && index <= |raw| && index % 512 == 0 && |raw| % 512 == 0
      && forall v {:trigger v in tableR} :: v in tableR ==> v % 512 == 0 && v + 512 <= index
    }

    /** Cached sectors lie on the disk; dirty ones are cached. */
    ghost predicate Sectors() {
      && |file| % 512 == 0
      && (forall s {:trigger s in table} :: s in table ==> 512 * s + 512 <= |file|)
      && (forall s {:trigger s in dirties} :: s in dirties ==> s in table)
    }

    /** Byte o of the slot of sector s. */
    function Cell(s: nat, o: nat): Byte { if s in table then At(raw, table[s] + o) else 0 }

    ghost predicate Fresh(s: nat) {
      forall o {:trigger Cell(s, o)} :: 0 <= o < 512 ==> Cell(s, o) == At(file, 512 * s + o)
    }

    /** A clean cached sector is what the file has. */
    ghost predicate Clean() {
      forall s {:trigger Fresh(s)} {:trigger s in table} :: s in table && s !in dirties ==> Fresh(s)
    }

    ghost predicate Tables() { Inverse() && Slots() && Sectors() }

    /** Byte p of the disk: from the cache if its sector is there, else from the file. */
    function Shows(p: nat): Byte {
      if p / 512 in table then Cell(p / 512, p % 512) else At(file, p)
    }

    /** What a read of a whole sector returns: its slot, as far as the buffer goes, or what is in the file. */
    function Returned(s: nat): seq<Byte> {
      if s in table then ReadAt(raw, table[s], 512) else ReadAt(file, 512 * s, 512)
    }

    ghost predicate Valid() { Tables() && Clean() }

    /** The flat disk the cache stands for. */
    ghost predicate Stands(d: seq<Byte>) {
      && Valid() && |d| == |file|
      && forall p {:trigger Shows(p)} :: 0 <= p < |d| ==> Shows(p) == d[p]
    }
  }

  lemma SlotFacts(c: Cache, s: nat)
    requires c.Tables() && s in c.table
    ensures c.table[s] % 512 == 0 && c.table[s] + 512 <= c.index <= |c.raw| && 512 * s + 512 <= |c.file|
    ensures c.table[s] in c.tableR && c.tableR[c.table[s]] == s
  {
  }

  /** Two cached sectors use two slots that do not overlap. */
  lemma SlotsApart(c: Cache, s: nat, t: nat)
    requires c.Tables() && s in c.table && t in c.table && s != t
    ensures c.table[s] + 512 <= c.table[t] || c.table[t] + 512 <= c.table[s]
  {
    hide Cache.Tables;
    SlotFacts(c, s);
    SlotFacts(c, t);
    Apart512(c.table[s], c.table[t]);
  }

  lemma Apart512(a: nat, b: nat)
    requires a % 512 == 0 && b % 512 == 0 && a != b
    ensures a + 512 <= b || b + 512 <= a
  {
  }

  lemma Parts(c: Cache, d: seq<Byte>)
    requires c.Stands(d)
    ensures c.Tables() && c.Clean() && |d| == |c.file|
    ensures forall p {:trigger c.Shows(p)} :: 0 <= p < |d| ==> c.Shows(p) == d[p]
  {
  }

  /** The bytes of the slot of a sector. */
  function Slot(c: Cache, s: nat): seq<Byte> {
    if s in c.table then ReadAt(c.raw, c.table[s], 512) else []
  }

  lemma SlotBytes(c: Cache, s: nat, o: nat)
    requires c.Tables() && s in c.table
    ensures |Slot(c, s)| == 512
    ensures o < 512 ==> Slot(c, s)[o] == c.Cell(s, o)
  {
    SlotFacts(c, s);
    hide Cache.Tables;
  }

  // ---- committing one dirty sector ----

  function Committed(c: Cache, s: nat): Cache {
    c.(file := Overwrite(c.file, 512 * s, Slot(c, s)), dirties := c.dirties - {s})
  }

  lemma CommitFile(c: Cache, s: nat, k: int)
    requires c.Tables() && s in c.table
    ensures |Committed(c, s).file| == |c.file|
    ensures At(Committed(c, s).file, k) == if 512 * s <= k < 512 * s + 512 then c.Cell(s, k - 512 * s) else
        At(c.file, k)
  {
    hide Overwrite, Slot, Cache.Tables, Cache.Cell, At;
    SlotFacts(c, s);
    SlotBytes(c, s, if 512 * s <= k < 512 * s + 512 then k - 512 * s else 0);
    AtOverwrite(c.file, 512 * s, Slot(c, s), k);
  }

  lemma CommitFresh(c: Cache, s: nat, t: nat)
    requires c.Tables() && s in c.table && t in c.table && (t != s ==> c.Fresh(t))
    ensures Committed(c, s).Fresh(t)
  {
    hide Overwrite, Slot, Cache.Tables, At;
    var e := Committed(c, s);
    forall o {:trigger e.Cell(t, o)} | 0 <= o < 512 ensures e.Cell(t, o) == At(e.file, 512 * t + o) {
      CommitFile(c, s, 512 * t + o);
      assert e.Cell(t, o) == c.Cell(t, o);
    }
  }

  lemma CommitKeeps(c: Cache, s: nat, d: seq<Byte>)
    requires c.Stands(d) && s in c.table
    ensures Committed(c, s).Stands(d)
    ensures forall k {:trigger At(Committed(c, s).file, k)} :: 512 * s <= k < 512 * s + 512 ==> k < |d| && d[k] == At(Committed(c, s).file, k)
  {
    hide Overwrite, Slot, At, Cache.Fresh, Cache.Cell, Cache.Inverse, Cache.Slots;
    var e := Committed(c, s);
    CommitFile(c, s, 0);
    SlotFacts(c, s);
    CommitTables(c, s);
    forall t | t in e.table && t !in e.dirties ensures e.Fresh(t) {
      CommitFresh(c, s, t);
    }
    forall k | 512 * s <= k < 512 * s + 512 ensures k < |d| && d[k] == At(e.file, k) {
      CommitShows(c, s, d, k);
    }
    forall p {:trigger e.Shows(p)} | 0 <= p < |d| ensures e.Shows(p) == d[p] {
      CommitShows(c, s, d, p);
    }
  }

  lemma CommitTables(c: Cache, s: nat)
    requires c.Tables() && s in c.table
    ensures Committed(c, s).Tables()
  {
    CommitFile(c, s, 0);
    hide Overwrite, Slot;
  }

  lemma CommitShows(c: Cache, s: nat, d: seq<Byte>, p: nat)
    requires c.Stands(d) && s in c.table && p < |d|
    ensures Committed(c, s).Shows(p) == d[p]
    ensures 512 * s <= p < 512 * s + 512 ==> At(Committed(c, s).file, p) == d[p]
  {
    hide Overwrite, Slot, At;
    Parts(c, d);
    CommitFile(c, s, p);
    hide Cache.Stands, Cache.Tables;
    assert c.Shows(p) == d[p];
    assert Committed(c, s).Cell(p / 512, p % 512) == c.Cell(p / 512, p % 512);
  }

  // ---- emptying the tables ----

  lemma ResetKeeps(c: Cache, d: seq<Byte>)
    requires c.Stands(d) && c.dirties == {}
    ensures c.(table := map[], tableR := map[]).Stands(d) && c.file == d
  {
    forall p | 0 <= p < |d| ensures d[p] == c.file[p] {
      assert c.Shows(p) == d[p];
      if p / 512 in c.table {
        assert c.Fresh(p / 512);
        assert c.Cell(p / 512, p % 512) == At(c.file, 512 * (p / 512) + p % 512);
      }
    }
  }

  // ---- loading a sector ----

  /** The next slot registered for a sector, and filled from where the file stands. */
  function LoadedFrom(c: Cache, s: nat, at: nat): Cache {
    c.(raw := Overwrite(c.raw, c.index, ReadAt(c.file, at, 512)), index := c.index + 512,
       table := c.table[s := c.index], tableR := c.tableR[c.index := s])
  }

  function Loaded(c: Cache, s: nat): Cache { LoadedFrom(c, s, 512 * s) }

  lemma LoadRaw(c: Cache, s: nat, k: int)
    requires 512 * s + 512 <= |c.file| && c.index + 512 <= |c.raw|
    ensures |Loaded(c, s).raw| == |c.raw|
    ensures At(Loaded(c, s).raw, k) == if c.index <= k < c.index + 512 then At(c.file, 512 * s + (k - c.index)) else
        At(c.raw, k)
  {
    AtOverwrite(c.raw, c.index, ReadAt(c.file, 512 * s, 512), k);
    hide Overwrite;
  }

  lemma LoadCell(c: Cache, s: nat, t: nat, o: nat)
    requires c.Tables() && s !in c.table && 512 * s + 512 <= |c.file| && c.index + 512 <= |c.raw| && o < 512
    requires t == s || t in c.table
    ensures Loaded(c, s).Cell(t, o) == if t == s then At(c.file, 512 * s + o) else c.Cell(t, o)
  {
    if t == s {
      LoadRaw(c, s, c.index + o);
    } else {
      SlotFacts(c, t);
      LoadRaw(c, s, c.table[t] + o);
    }
    hide Cache.Tables, Overwrite, ReadAt, At;
  }

  lemma LoadTables(c: Cache, s: nat)
    requires c.Tables() && s !in c.table && 512 * s + 512 <= |c.file| && c.index + 512 <= |c.raw|
    ensures Loaded(c, s).Tables() && forall t {:trigger c.table[t]} :: t in c.table ==> c.table[t] != c.index
  {
    LoadRaw(c, s, 0);
    hide Overwrite, ReadAt;
  }

  lemma LoadFresh(c: Cache, s: nat, t: nat)
    requires c.Tables() && s !in c.table && 512 * s + 512 <= |c.file| && c.index + 512 <= |c.raw|
    requires t == s || (t in c.table && c.Fresh(t))
    ensures Loaded(c, s).Fresh(t)
  {
    hide Overwrite, ReadAt, At, Cache.Tables, Cache.Cell;
    var e := Loaded(c, s);
    forall o {:trigger e.Cell(t, o)} | 0 <= o < 512 ensures e.Cell(t, o) == At(e.file, 512 * t + o) {
      LoadCell(c, s, t, o);
    }
  }

  lemma LoadKeeps(c: Cache, s: nat, d: seq<Byte>)
    requires c.Stands(d) && s !in c.table && 512 * s + 512 <= |c.file| && c.index + 512 <= |c.raw|
    ensures Loaded(c, s).Stands(d) && forall t {:trigger c.table[t]} :: t in c.table ==> c.table[t] != c.index
  {
    hide Overwrite, ReadAt, At, Cache.Tables, Cache.Cell, Cache.Fresh;
    var e := Loaded(c, s);
    LoadTables(c, s);
    DirtyCached(c, s);
    forall t | t in e.table && t !in e.dirties ensures e.Fresh(t) {
      LoadFresh(c, s, t);
    }
    forall p {:trigger e.Shows(p)} | 0 <= p < |d| ensures e.Shows(p) == d[p] {
      assert c.Shows(p) == d[p];
      if p / 512 in e.table {
        LoadCell(c, s, p / 512, p % 512);
      }
    }
  }

  lemma DirtyCached(c: Cache, s: nat)
    requires c.Tables()
    ensures s in c.dirties ==> s in c.table
  {
  }

  // ---- writing into a cached sector ----

  function Poked(c: Cache, s: nat, o: nat, b: seq<Byte>): Cache {
    c.(raw := Overwrite(c.raw, (if s in c.table then c.table[s] else 0) + o, b), dirties := c.dirties + {s})
  }

  lemma PokeCell(c: Cache, s: nat, o: nat, b: seq<Byte>, t: nat, j: nat)
    requires c.Tables() && s in c.table && o + |b| <= 512 && t in c.table && j < 512
    ensures |Poked(c, s, o, b).raw| == |c.raw|
    ensures Poked(c, s, o, b).Cell(t, j) == if t == s && o <= j < o + |b| then b[j - o] else c.Cell(t, j)
  {
    hide Overwrite, At, Cache.Tables;
    SlotFacts(c, s);
    if t != s {
      SlotsApart(c, s, t);
    }
    AtOverwrite(c.raw, c.table[s] + o, b, c.table[t] + j);
  }

  lemma PokeFresh(c: Cache, s: nat, o: nat, b: seq<Byte>, t: nat)
    requires c.Tables() && s in c.table && o + |b| <= 512 && t in c.table && t != s && c.Fresh(t)
    ensures Poked(c, s, o, b).Fresh(t)
  {
    hide Overwrite, At, Cache.Tables, Cache.Cell;
    var e := Poked(c, s, o, b);
    forall j {:trigger e.Cell(t, j)} | 0 <= j < 512 ensures e.Cell(t, j) == At(e.file, 512 * t + j) {
      PokeCell(c, s, o, b, t, j);
    }
  }

  lemma PokeTables(c: Cache, s: nat, o: nat, b: seq<Byte>)
    requires c.Tables() && s in c.table && o + |b| <= 512
    ensures Poked(c, s, o, b).Tables()
  {
    PokeCell(c, s, o, b, s, 0);
    hide Overwrite;
  }

  lemma PokeKeeps(c: Cache, s: nat, o: nat, b: seq<Byte>, d: seq<Byte>)
    requires c.Stands(d) && s in c.table && o + |b| <= 512
    ensures Poked(c, s, o, b).Stands(Overwrite(d, 512 * s + o, b))
  {
    hide Overwrite, At, Cache.Tables, Cache.Cell, Cache.Fresh;
    var e, f := Poked(c, s, o, b), Overwrite(d, 512 * s + o, b);
    SlotFacts(c, s);
    PokeTables(c, s, o, b);
    forall t | t in e.table && t !in e.dirties ensures e.Fresh(t) {
      PokeFresh(c, s, o, b, t);
    }
    AtOverwrite(d, 512 * s + o, b, 0);
    forall p {:trigger e.Shows(p)} | 0 <= p < |d| ensures |f| == |d| && e.Shows(p) == f[p] {
      OverwriteAt(d, 512 * s + o, b, p);
      assert c.Shows(p) == d[p];
      if p / 512 in c.table {
        PokeCell(c, s, o, b, p / 512, p % 512);
      }
    }
  }

  /** A cached sector may be called dirty. */
  lemma MarkKeeps(c: Cache, s: nat, d: seq<Byte>)
    requires c.Stands(d) && s in c.table
    ensures c.(dirties := c.dirties + {s}).Stands(d)
  {
    var e := c.(dirties := c.dirties + {s});
    forall t | t in e.table && t !in e.dirties ensures e.Fresh(t) {
      assert c.Fresh(t);
      forall o {:trigger e.Cell(t, o)} | 0 <= o < 512 ensures e.Cell(t, o) == At(e.file, 512 * t + o) {
        assert c.Cell(t, o) == e.Cell(t, o);
      }
    }
    forall p {:trigger e.Shows(p)} | 0 <= p < |d| ensures e.Shows(p) == d[p] {
      assert c.Shows(p) == d[p];
    }
  }

  // ---- loading a sector from elsewhere ----

  /** What a slot gets from where the file stands: a sector, or nothing at the end of the disk. */
  function Strayed(c: Cache, at: nat, d: seq<Byte>): seq<Byte> {
    if at + 512 <= |d| then d[at..at + 512] else ReadAt(c.raw, c.index, 512)
  }

  /** Bytes written back where they were. */
  lemma WrittenBack(d: seq<Byte>, p: nat)
    requires p + 512 <= |d|
    ensures Overwrite(d, p, ReadAt(d, p, 512)) == d
  {
    var x := Overwrite(d, p, ReadAt(d, p, 512));
    forall k | 0 <= k < |d| ensures x[k] == d[k] {
    }
  }

  lemma StrayRaw(c: Cache, s: nat, at: nat)
    requires c.index + 512 <= |c.raw| && 512 * s + 512 <= |c.file| && at % 512 == |c.file| % 512 == 0 && at <= |c.file|
    ensures Overwrite(Loaded(c, s).raw, c.index, Strayed(c, at, c.file)) == LoadedFrom(c, s, at).raw
  {
    hide Overwrite;
    var x, y := ReadAt(c.file, 512 * s, 512), Strayed(c, at, c.file);
    Covered(c.raw, c.index, x, y);
    if at + 512 > |c.file| {
      WrittenBack(c.raw, c.index);
      assert ReadAt(c.file, at, 512) == [];
      OverNothing(c.raw, c.index);
    }
  }

  lemma OverNothing(d: seq<Byte>, p: nat)
    ensures Overwrite(d, p, []) == d
  {
  }

  /** With nothing cached before: the sector, dirty now, reads as what its slot got. */
  lemma StrayKeeps(c: Cache, s: nat, at: nat, d: seq<Byte>)
    requires c.Stands(d) && c.table == map[] && c.index + 512 <= |c.raw| && 512 * s + 512 <= |c.file|
    requires at % 512 == 0 && at <= |c.file|
    ensures LoadedFrom(c, s, at).(dirties := c.dirties + {s}).Stands(Overwrite(d, 512 * s, Strayed(c, at, d)))
  {
    hide Overwrite, Cache.Valid;
    NothingDirty(c, d);
    ResetKeeps(c, d);
    LoadKeeps(c, s, d);
    StrayRaw(c, s, at);
    StrayedSize(c, at, d);
    PokeKeeps(Loaded(c, s), s, 0, Strayed(c, at, d), d);
    assert LoadedFrom(c, s, at).(dirties := c.dirties + {s}) == Poked(Loaded(c, s), s, 0, Strayed(c, at, d));
  }

  lemma NothingDirty(c: Cache, d: seq<Byte>)
    requires c.Stands(d) && c.table == map[]
    ensures c.dirties == {} && |c.file| == |d| && |d| % 512 == 0
  {
    forall s ensures s !in c.dirties {
      DirtyCached(c, s);
    }
  }

  lemma StrayedSize(c: Cache, at: nat, d: seq<Byte>)
    requires c.index + 512 <= |c.raw| && at <= |d|
    ensures |Strayed(c, at, d)| == 512
  {
  }

  // ---- writing whole sectors past the cache ----

  function Dropped(c: Cache, s: nat): Cache {
    if s in c.table then c.(table := c.table - {s}, tableR := c.tableR - {c.table[s]},
        dirties := c.dirties - {s}) else c
  }

  /** Outside sectors a..b the cache still stands for d; none of those sectors is cached. */
  ghost predicate Dropping(c: Cache, d: seq<Byte>, a: nat, b: nat) {
    && c.Valid() && |d| == |c.file|
    && (forall s {:trigger s in c.table} :: a <= s < b ==> s !in c.table)
    && forall p {:trigger c.Shows(p)} :: 0 <= p < |d| && !(512 * a <= p < 512 * b) ==> c.Shows(p) == d[p]
  }

  lemma DropFresh(c: Cache, s: nat, t: nat)
    requires t in c.table && t != s && c.Fresh(t)
    ensures Dropped(c, s).Fresh(t)
  {
    var e := Dropped(c, s);
    forall o {:trigger e.Cell(t, o)} | 0 <= o < 512 ensures e.Cell(t, o) == At(e.file, 512 * t + o) {
      assert e.Cell(t, o) == c.Cell(t, o);
    }
  }

  lemma DropKeeps(c: Cache, d: seq<Byte>, a: nat, b: nat)
    requires Dropping(c, d, a, b) && a <= b
    ensures Dropping(Dropped(c, b), d, a, b + 1)
  {
    hide Cache.Fresh, At;
    var e := Dropped(c, b);
    forall t | t in e.table && t !in e.dirties ensures e.Fresh(t) {
      DropFresh(c, b, t);
    }
    forall p {:trigger e.Shows(p)} | 0 <= p < |d| && !(512 * a <= p < 512 * (b + 1)) ensures e.Shows(p) == d[p] {
      assert c.Shows(p) == d[p];
    }
  }

  /** Dropping a clean sector changes nothing that is shown. */
  lemma DropClean(c: Cache, d: seq<Byte>, s: nat)
    requires c.Stands(d) && s !in c.dirties
    ensures Dropped(c, s).Stands(d)
  {
    var e := Dropped(c, s);
    assert Dropping(c, d, s, s);
    DropKeeps(c, d, s, s);
    hide At;
    forall p {:trigger e.Shows(p)} | 0 <= p < |d| ensures e.Shows(p) == d[p] {
      assert c.Shows(p) == d[p];
      if p / 512 == s && s in c.table {
        assert c.Fresh(s);
        assert c.Cell(s, p % 512) == At(c.file, 512 * s + p % 512);
      }
    }
  }

  /** One sector dropped, before the first to be written or among those. */
  lemma DropOne(c: Cache, d: seq<Byte>, a: nat, s: nat)
    requires if s < a then c.Stands(d) && s !in c.dirties && s + 1 == a else Dropping(c, d, a, s)
    ensures Dropping(Dropped(c, s), d, a, s + 1)
  {
    hide Dropped, Cache.Shows, Cache.Valid;
    if s < a {
      DropClean(c, d, s);
    } else {
      DropKeeps(c, d, a, s);
    }
  }

  /** A sector that is not cached need not be dropped. */
  lemma DropLast(c: Cache, d: seq<Byte>, a: nat, s: nat)
    requires Dropping(c, d, a, s) && s !in c.table && a <= s
    ensures Dropping(c, d, a, s + 1)
  {
    hide Cache.Shows, Cache.Valid;
  }

  lemma NotDirty(c: Cache, d: seq<Byte>, s: nat)
    requires c.Stands(d) && s !in c.table
    ensures s !in c.dirties
  {
  }

  lemma DirectFresh(c: Cache, a: nat, b: nat, s: seq<Byte>, t: nat)
    requires a <= b && |s| == 512 * (b - a) && 512 * b <= |c.file| && !(a <= t < b) && c.Fresh(t)
    ensures c.(file := Overwrite(c.file, 512 * a, s)).Fresh(t)
  {
    hide Overwrite, At;
    var e := c.(file := Overwrite(c.file, 512 * a, s));
    forall o {:trigger e.Cell(t, o)} | 0 <= o < 512 ensures e.Cell(t, o) == At(e.file, 512 * t + o) {
      AtOverwrite(c.file, 512 * a, s, 512 * t + o);
      assert e.Cell(t, o) == c.Cell(t, o);
    }
  }

  lemma DirectKeeps(c: Cache, d: seq<Byte>, a: nat, b: nat, s: seq<Byte>)
    requires Dropping(c, d, a, b) && a <= b && |s| == 512 * (b - a) && 512 * b <= |d|
    ensures c.(file := Overwrite(c.file, 512 * a, s)).Stands(Overwrite(d, 512 * a, s))
  {
    hide Overwrite, Cache.Fresh, Cache.Inverse, Cache.Slots;
    var e, f := c.(file := Overwrite(c.file, 512 * a, s)), Overwrite(d, 512 * a, s);
    AtOverwrite(c.file, 512 * a, s, 0);
    AtOverwrite(d, 512 * a, s, 0);
    assert e.Inverse() && e.Slots() by { SameTables(c, e); }
    forall t | t in e.table && t !in e.dirties ensures e.Fresh(t) {
      DirectFresh(c, a, b, s, t);
    }
    forall p {:trigger e.Shows(p)} | 0 <= p < |d| ensures e.Shows(p) == f[p] {
      DirectShows(c, d, a, b, s, p);
    }
  }

  lemma SameTables(c: Cache, e: Cache)
    requires c.Inverse() && c.Slots() && e == c.(file := e.file)
    ensures e.Inverse() && e.Slots()
  {
  }

  lemma DirectShows(c: Cache, d: seq<Byte>, a: nat, b: nat, s: seq<Byte>, p: nat)
    requires Dropping(c, d, a, b) && a <= b && |s| == 512 * (b - a) && 512 * b <= |d| && p < |d|
    ensures c.(file := Overwrite(c.file, 512 * a, s)).Shows(p) == At(Overwrite(d, 512 * a, s), p)
  {
    hide Overwrite, Cache.Valid;
    var e := c.(file := Overwrite(c.file, 512 * a, s));
    AtOverwrite(c.file, 512 * a, s, p);
    AtOverwrite(d, 512 * a, s, p);
    assert e.Cell(p / 512, p % 512) == c.Cell(p / 512, p % 512);
    if !(512 * a <= p < 512 * b) {
      assert c.Shows(p) == d[p];
    }
  }

  // ---- what the operations ask of the state ----

  lemma DirtyIsCached(c: Cache, d: seq<Byte>, s: nat)
    requires c.Stands(d) && s in c.dirties
    ensures s in c.table && c.table[s] + 512 <= |c.raw| && c.raw[c.table[s]..c.table[s] + 512] == Slot(c, s)
  {
    SlotFacts(c, s);
  }

  /** With nothing cached the slots may be reused from the start. */
  lemma RestartKeeps(c: Cache, d: seq<Byte>)
    requires c.Stands(d) && c.table == map[] && c.dirties == {}
    ensures c.(index := 0).Stands(d)
  {
    var e := c.(index := 0);
    assert c.tableR == map[] by {
      forall v ensures v !in c.tableR {
      }
    }
    forall p {:trigger e.Shows(p)} | 0 <= p < |d| ensures e.Shows(p) == d[p] {
      assert c.Shows(p) == d[p];
    }
  }

  lemma SlotRoom(c: Cache, d: seq<Byte>, s: nat)
    requires c.Stands(d) && s in c.table
    ensures c.table[s] + 512 <= |c.raw| && 512 * s + 512 <= |d|
  {
    SlotFacts(c, s);
  }

  /** A slot holds what the disk has in its sector. */
  lemma SlotShows(c: Cache, d: seq<Byte>, s: nat, from: nat, n: nat)
    requires c.Stands(d) && s in c.table && from + n <= 512
    ensures c.table[s] + 512 <= |c.raw| && 512 * s + 512 <= |d|
    ensures c.raw[c.table[s] + from..c.table[s] + from + n] == d[512 * s + from..512 * s + from + n]
  {
    SlotFacts(c, s);
    hide Cache.Valid;
    var a, b := c.raw[c.table[s] + from..c.table[s] + from + n], d[512 * s + from..512 * s + from + n];
    forall k | 0 <= k < n ensures a[k] == b[k] {
      assert c.Shows(512 * s + from + k) == d[512 * s + from + k];
    }
  }

  /** Sectors that are not dirty are in the file. */
  lemma FileShows(c: Cache, d: seq<Byte>, a: nat, n: nat)
    requires c.Stands(d) && 512 * (a + n) <= |d|
    requires forall s {:trigger s in c.dirties} :: a <= s < a + n ==> s !in c.dirties
    ensures ReadAt(c.file, 512 * a, 512 * n) == d[512 * a..512 * a + 512 * n]
  {
    Parts(c, d);
    hide Cache.Stands, Cache.Tables;
    forall k | 512 * a <= k < 512 * (a + n) ensures c.file[k] == d[k] {
      assert c.Shows(k) == d[k];
      if k / 512 in c.table {
        assert c.Fresh(k / 512);
        assert c.Cell(k / 512, k % 512) == At(c.file, 512 * (k / 512) + k % 512);
      }
    }
    hide Cache.Shows, Cache.Clean;
  }

  // ---- a read of nothing at a sector boundary ----

  /** The sector is entered in the tables at the next free slot, which is neither filled nor taken. */
  function Unfilled(c: Cache, s: nat): Cache {
    c.(table := (map t: nat | t in c.table && c.table[t] != c.index :: c.table[t])[s := c.index],
       tableR := c.tableR[c.index := s])
  }

  /** Every sector reads as d has it. */
  ghost predicate ReadsAs(c: Cache, d: seq<Byte>) {
    forall t: nat {:trigger c.Returned(t)} :: 512 * t + 512 <= |d| ==> c.Returned(t) == d[512 * t..512 * t + 512]
  }

  /** So it is while the invariant holds. */
  lemma StandsReads(c: Cache, d: seq<Byte>)
    requires c.Stands(d)
    ensures ReadsAs(c, d)
  {
    forall t: nat | 512 * t + 512 <= |d| ensures c.Returned(t) == d[512 * t..512 * t + 512] {
      if t in c.table {
        SlotShows(c, d, t, 0, 512);
      } else {
        DirtyCached(c, t);
        FileShows(c, d, t, 1);
      }
    }
  }

  /** After a read of nothing at a boundary every sector reads the same exactly if the position was the end of the disk,
      or the next slot lies in the buffer and happens to hold the sector. */
  lemma UnfilledExactly(c: Cache, s: nat, d: seq<Byte>)
    requires c.Stands(d) && 512 * s <= |d|
    ensures ReadsAs(Unfilled(c, s), d) <==>
        512 * s == |d| || (c.index + 512 <= |c.raw| && c.raw[c.index..c.index + 512] == d[512 * s..512 * s + 512])
  {
    StandsReads(c, d);
    var e := Unfilled(c, s);
    forall t: nat ensures e.Returned(t) == if t == s then ReadAt(c.raw, c.index, 512) else c.Returned(t) {
      UnfilledReturns(c, s, d, t);
    }
    hide Cache.Stands, Cache.Returned;
    if 512 * s != |d| {
      assert 512 * s + 512 <= |d| by { Whole(c, d); }
      if ReadsAs(e, d) {
        assert e.Returned(s) == d[512 * s..512 * s + 512];
      }
    }
  }

  lemma Whole(c: Cache, d: seq<Byte>)
    requires c.Stands(d)
    ensures |d| % 512 == 0
  {
  }

  lemma UnfilledReturns(c: Cache, s: nat, d: seq<Byte>, t: nat)
    requires c.Stands(d)
    ensures Unfilled(c, s).Returned(t) == if t == s then ReadAt(c.raw, c.index, 512) else c.Returned(t)
  {
    assert c.index !in c.tableR;
  }

  /** One sector of ones over an empty buffer: after a read of nothing it reads as zeros. */
  lemma UnfilledLosesData() returns (c: Cache, d: seq<Byte>)
    ensures c.Stands(d) && d == Fill(512, 1) && Unfilled(c, 0).Returned(0) == Zeros(512) != d
  {
    d := Fill(512, 1);
    c := Cache(d, Zeros(512), 0, map[], map[], {});
    assert c.raw[0..512] == Zeros(512);
    assert d[0] != Zeros(512)[0];
  }

  /** With the buffer full the sector, zeros like the buffer, reads as no bytes at all. */
  lemma UnfilledPastBuffer() returns (c: Cache, d: seq<Byte>)
    ensures c.Stands(d) && |d| == 512 && c.index == |c.raw| && Unfilled(c, 0).Returned(0) == []
  {
    d := Zeros(512);
    c := Cache(d, Zeros(512), 512, map[], map[], {});
  }

  /** A write past the cache shows exactly if the sectors it leaves in their slots hold the same bytes. */
  lemma DirectExactly(c: Cache, d: seq<Byte>, a: nat, b: nat, s: seq<Byte>)
    requires c.Stands(d) && a <= b && |s| == 512 * (b - a) && 512 * b <= |d|
    ensures var e, f := c.(file := Overwrite(c.file, 512 * a, s)), Overwrite(d, 512 * a, s);
      (forall p {:trigger e.Shows(p)} :: 0 <= p < |d| ==> e.Shows(p) == At(f, p)) <==>
      forall p {:trigger d[p]} :: 512 * a <= p < 512 * b && p / 512 in c.table ==> d[p] == s[p - 512 * a]
  {
    hide Overwrite, Cache.Valid;
    var e, f := c.(file := Overwrite(c.file, 512 * a, s)), Overwrite(d, 512 * a, s);
    forall p {:trigger e.Shows(p)} | 0 <= p < |d|
      ensures e.Shows(p) == if 512 * a <= p < 512 * b && p / 512 !in c.table then s[p - 512 * a] else d[p]
      ensures At(f, p) == if 512 * a <= p < 512 * b then s[p - 512 * a] else d[p]
    {
      assert c.Shows(p) == d[p];
      AtOverwrite(c.file, 512 * a, s, p);
      AtOverwrite(d, 512 * a, s, p);
      assert e.Cell(p / 512, p % 512) == c.Cell(p / 512, p % 512);
    }
    hide Cache.Shows, Cache.Stands;
    if forall p {:trigger e.Shows(p)} :: 0 <= p < |d| ==> e.Shows(p) == At(f, p) {
      forall p {:trigger d[p]} | 512 * a <= p < 512 * b && p / 512 in c.table ensures d[p] == s[p - 512 * a] {
        assert e.Shows(p) == At(f, p);
      }
    }
  }
}
