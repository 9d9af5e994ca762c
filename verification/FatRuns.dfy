/** Any history of allocating and freeing through the driver, for any number of files. */
module FatRuns {
  import opened FatTable
  import opened FatChains
  import opened FatDriver
  import opened FatVolume

  /** Clusters added to a file (which it starts if it has none), or all of them given back. */
  datatype Command = Extend(id: nat, count: nat) | Remove(id: nat)

  /** The run list of every file. */
  type Files = map<nat, seq<Run>>

  /** The volume those run lists describe. */
  function Described(t: seq<nat>, files: Files): Volume {
    Volume(t, map id | id in files :: Flatten(files[id]))
  }

  /** The run lists are chains of the table, and together with the free clusters they share the volume out. */
  ghost predicate Consistent(t: seq<nat>, files: Files, last: nat) {
    (forall id {:trigger files[id]} :: id in files ==> Positive(files[id])) && Partitioned(Described(t, files), last)
  }

  lemma ChainOf(t: seq<nat>, files: Files, last: nat, id: nat)
    requires Consistent(t, files, last) && id in files
    ensures Positive(files[id]) && IsChain(t, Flatten(files[id]), last) && files[id] != []
    ensures Flatten(files[id])[0] == files[id][0].start && 2 <= files[id][0].start < |t|
  {
    var v := Described(t, files);
    assert id in v.files && v.files[id] == Flatten(files[id]);
    assert Flatten([]) == [];
    FirstOf(files[id]);
  }

  lemma {:induction false} FirstOf(runs: seq<Run>)
    requires runs != [] && Positive(runs)
    ensures Flatten(runs) != [] && Flatten(runs)[0] == runs[0].start
  {
    if |runs| > 1 {
      FirstOf(runs[..|runs| - 1]);
    } else {
      assert runs[..0] == [];
    }
  }

  lemma ExtendKeeps(t: seq<nat>, t': seq<nat>, files: Files, last: nat, id: nat, runs: seq<Run>, runs': seq<Run>,
      added: seq<nat>)
    requires Consistent(t, files, last) && runs == if id in files then files[id] else []
    requires Grown(t, t', Flatten(runs), added, last) && Positive(runs') && Flatten(runs') == Flatten(runs) + added
    ensures Consistent(t', files[id := runs'], last)
  {
    var v, v' := Described(t, files), Described(t', files[id := runs']);
    hide Flatten, Grown, Partitioned, Positive;
    if id in files {
      assert v'.files == v.files[id := v.files[id] + added];
      StepKeeps(v, Grow(id, added), v', last);
    } else {
      NothingFlat();
      assert [] + added == added;
      assert v'.files == v.files[id := added];
      StepKeeps(v, Create(id, added), v', last);
    }
  }

  lemma NothingFlat()
    ensures Flatten([]) == []
  {
  }

  lemma RemoveKeeps(t: seq<nat>, t': seq<nat>, files: Files, last: nat, id: nat)
    requires Consistent(t, files, last) && id in files && Released(t, t', Flatten(files[id]))
    ensures Consistent(t', files - {id}, last)
  {
    var v, v' := Described(t, files), Described(t', files - {id});
    hide Flatten, Released, Partitioned, Positive;
    assert v'.files == v.files - {id};
    StepKeeps(v, Release(id), v', last);
  }

  /** One command; extending fails, and changes nothing, only when the driver counts too few free clusters. */
  method Run(fat: Fat, files: Files, command: Command) returns (files': Files)
    requires fat.Valid() && Consistent(fat.T(), files, fat.g.Last())
    requires command.Extend? ==> command.count > 0
    modifies fat`decoded, fat`freeMap, fat`freeClusters, fat`uncompacted, fat.stream
    ensures fat.Valid() && Consistent(fat.T(), files', fat.g.Last())
    ensures command.Extend? && old(fat.freeClusters) < command.count ==> files' == files && fat.T() == old(fat.T())
    ensures command.Extend? && old(fat.freeClusters) >= command.count ==>
      command.id in files' && |Flatten(files'[command.id])| == (if command.id in files then |Flatten(files[command.id])| else 0) + command.count
    ensures command.Remove? ==> command.id !in files'
  {
    hide ZeroSet, RunsOk, FreeSet, Geometry.Mirrored, Geometry.Table, Consistent, IsChain, Flatten, Positive;
    hide Grown, Released;
    ghost var t := fat.T();
    files' := files;
    match command
    case Extend(id, count) =>
      var runs: seq<FatChains.Run> := [];
      if id in files {
        ChainOf(t, files, fat.g.Last(), id);
        runs := files[id];
      } else {
        NothingFlat();
        NoRuns();
      }
      ChainGrowable(t, runs, fat.g.Last());
      var r, runs', added := fat.Alloc(runs, count);
      if r.Ok? {
        ExtendKeeps(t, fat.T(), files, fat.g.Last(), id, runs, runs', added);
        files' := files[id := runs'];
      }
    case Remove(id) =>
      if id in files {
        ChainOf(t, files, fat.g.Last(), id);
        fat.FreeChain(files[id][0].start, Flatten(files[id]), fat.g.Last());
        RemoveKeeps(t, fat.T(), files, fat.g.Last(), id);
        files' := files - {id};
      }
  }

  lemma NoRuns()
    ensures Positive([])
  {
  }

  /** After any commands at all the clusters are shared out among free space and the chains of the files. */
  method Replay(fat: Fat, files: Files, commands: seq<Command>) returns (files': Files)
    requires fat.Valid() && Consistent(fat.T(), files, fat.g.Last())
    requires forall c {:trigger c in commands} :: c in commands && c.Extend? ==> c.count > 0
    modifies fat`decoded, fat`freeMap, fat`freeClusters, fat`uncompacted, fat.stream
    ensures fat.Valid() && Consistent(fat.T(), files', fat.g.Last())
  {
    hide ZeroSet, RunsOk, FreeSet, Geometry.Mirrored, Geometry.Table, Consistent;
    files' := files;
    var i := 0;
    while i < |commands|
      invariant i <= |commands| && fat.Valid() && Consistent(fat.T(), files', fat.g.Last())
    {
      assert commands[i] in commands;
      files' := Run(fat, files', commands[i]);
      i := i + 1;
    }
  }
}
