/** Whole runs of the allocator: clusters stay partitioned into free space and disjoint chains. */
module FatVolume {
  import opened FatChains

  /** A FAT and the chain of every file on it. */
  datatype Volume = Volume(table: seq<nat>, files: map<nat, seq<nat>>)

  /** What the driver's methods do to a volume; the effect on the table is what they ensure. */
  datatype Op =
    | Create(id: nat, added: seq<nat>)
    | Grow(id: nat, added: seq<nat>)
    | Release(id: nat)
    | Cut(id: nat, keep: nat)

  ghost predicate Apart(a: seq<nat>, b: seq<nat>) { forall c :: c in a ==> c !in b }

  ghost predicate Owned(v: Volume, c: nat) { exists id :: id in v.files && c in v.files[id] }

  /** Every cluster is free or in exactly one chain, and every chain ends. */
  ghost predicate Partitioned(v: Volume, last: nat) {
    && |v.table| <= last
    && (forall id :: id in v.files ==> IsChain(v.table, v.files[id], last))
    && (forall i, j :: i in v.files && j in v.files && i != j ==> Apart(v.files[i], v.files[j]))
    && (forall c {:trigger Owned(v, c)} :: IsCluster(v.table, c) && v.table[c] != 0 ==> Owned(v, c))
  }

  /** t' keeps the first clusters of cs, ends the chain there and zeroes the rest. */
  ghost predicate CutAt(t: seq<nat>, t': seq<nat>, cs: seq<nat>, keep: nat, last: nat) {
    && 0 < keep <= |cs| && |t'| == |t| && Clusters(t, cs)
    && t'[cs[keep - 1]] == last
    && (forall k :: keep <= k < |cs| ==> t'[cs[k]] == 0)
    && (forall c :: IsCluster(t, c) && c !in cs[keep - 1..] ==> t'[c] == t[c])
  }

  ghost predicate Step(v: Volume, op: Op, v': Volume, last: nat) {
    match op
    case Create(id, added) =>
      && id !in v.files
      && Grown(v.table, v'.table, [], added, last)
      && v'.files == v.files[id := added]
    case Grow(id, added) =>
      && id in v.files
      && Grown(v.table, v'.table, v.files[id], added, last)
      && v'.files == v.files[id := v.files[id] + added]
    case Release(id) =>
      && id in v.files
      && Released(v.table, v'.table, v.files[id])
      && v'.files == v.files - {id}
    case Cut(id, keep) =>
      && id in v.files
      && CutAt(v.table, v'.table, v.files[id], keep, last)
      && v'.files == v.files[id := v.files[id][..keep]]
  }

  /** The other files see no change: nothing but cs and free clusters was touched. */
  ghost predicate Untouched(v: Volume, id: nat, t': seq<nat>) {
    && |t'| == |v.table|
    && forall j :: j in v.files && j != id ==> forall c :: c in v.files[j] ==> IsCluster(t', c) && t'[c] == v.table[c]
  }

  lemma SameChain(t: seq<nat>, t': seq<nat>, cs: seq<nat>, last: nat)
    requires IsChain(t, cs, last) && |t'| == |t|
    requires forall c :: c in cs ==> IsCluster(t', c) && t'[c] == t[c]
    ensures IsChain(t', cs, last)
  {
    forall k | 0 <= k < |cs| - 1
      ensures t'[cs[k]] == cs[k + 1]
    {
      assert t[cs[k]] == cs[k + 1];
    }
  }

  /** One file changes from its old chain to cs'; every other file keeps its clusters and entries. */
  lemma OthersKept(v: Volume, id: nat, t': seq<nat>, j: nat, last: nat)
    requires Partitioned(v, last) && Untouched(v, id, t') && j in v.files && j != id
    ensures IsChain(t', v.files[j], last)
  {
    SameChain(v.table, t', v.files[j], last);
  }

  /** A cluster of a chain has a nonzero entry. */
  lemma OwnedNonzero(v: Volume, j: nat, c: nat, last: nat)
    requires Partitioned(v, last) && j in v.files && c in v.files[j]
    ensures IsCluster(v.table, c) && v.table[c] != 0
  {
    var k :| 0 <= k < |v.files[j]| && v.files[j][k] == c;
    ChainEntry(v.table, v.files[j], last, k);
  }

  lemma GrownUntouched(v: Volume, id: nat, cs: seq<nat>, added: seq<nat>, t': seq<nat>, last: nat)
    requires Partitioned(v, last)
    requires if id in v.files then cs == v.files[id] else cs == []
    requires Grown(v.table, t', cs, added, last)
    ensures Untouched(v, id, t')
    ensures forall j :: j in v.files && j != id ==> Apart(v.files[j], added)
  {
    forall j | j in v.files && j != id
      ensures Apart(v.files[j], added)
      ensures forall c :: c in v.files[j] ==> IsCluster(t', c) && t'[c] == v.table[c]
    {
      forall c | c in v.files[j]
        ensures c !in added && IsCluster(t', c) && t'[c] == v.table[c]
      {
        OwnedNonzero(v, j, c, last);
        assert c !in cs;
      }
    }
  }

  /** Creating or growing a file keeps the partition. */
  lemma GrowKeeps(v: Volume, id: nat, cs: seq<nat>, added: seq<nat>, v': Volume, last: nat)
    requires Partitioned(v, last)
    requires if id in v.files then cs == v.files[id] else cs == []
    requires Grown(v.table, v'.table, cs, added, last)
    requires v'.files == v.files[id := cs + added]
    ensures Partitioned(v', last)
  {
    hide IsChain;
    GrownUntouched(v, id, cs, added, v'.table, last);
    GrownChain(v.table, v'.table, cs, added, last);
    forall j | j in v'.files
      ensures IsChain(v'.table, v'.files[j], last)
    {
      if j != id {
        OthersKept(v, id, v'.table, j, last);
      }
    }
    forall c | IsCluster(v'.table, c) && v'.table[c] != 0
      ensures Owned(v', c)
    {
      if c in cs + added {
        assert id in v'.files && c in v'.files[id];
      } else {
        GrownOwned(v, id, cs, added, v', last, c);
      }
    }
  }

  lemma GrownOwned(v: Volume, id: nat, cs: seq<nat>, added: seq<nat>, v': Volume, last: nat, c: nat)
    requires Partitioned(v, last)
    requires if id in v.files then cs == v.files[id] else cs == []
    requires Grown(v.table, v'.table, cs, added, last)
    requires v'.files == v.files[id := cs + added]
    requires IsCluster(v'.table, c) && v'.table[c] != 0 && c !in cs + added
    ensures Owned(v', c)
  {
    hide IsChain;
    assert c !in cs && c !in added;
    assert v'.table[c] == v.table[c];
    assert Owned(v, c);
    var j :| j in v.files && c in v.files[j];
    assert j in v'.files && c in v'.files[j];
  }

  /** Releasing a file keeps the partition. */
  lemma ReleaseKeeps(v: Volume, id: nat, v': Volume, last: nat)
    requires Partitioned(v, last) && id in v.files
    requires Released(v.table, v'.table, v.files[id])
    requires v'.files == v.files - {id}
    ensures Partitioned(v', last)
  {
    hide IsChain;
    forall j | j in v.files && j != id
      ensures forall c :: c in v.files[j] ==> IsCluster(v'.table, c) && v'.table[c] == v.table[c]
    {
      forall c | c in v.files[j]
        ensures IsCluster(v'.table, c) && v'.table[c] == v.table[c]
      {
        OwnedNonzero(v, j, c, last);
        assert c !in v.files[id];
      }
    }
    forall j | j in v'.files
      ensures IsChain(v'.table, v'.files[j], last)
    {
      OthersKept(v, id, v'.table, j, last);
    }
    forall c | IsCluster(v'.table, c) && v'.table[c] != 0
      ensures Owned(v', c)
    {
      assert c !in v.files[id];
      assert Owned(v, c);
      var j :| j in v.files && c in v.files[j];
      assert j in v'.files && c in v'.files[j];
    }
  }

  /** A cut chain is a chain. */
  lemma CutChain(t: seq<nat>, t': seq<nat>, cs: seq<nat>, keep: nat, last: nat)
    requires IsChain(t, cs, last) && |t| <= last && CutAt(t, t', cs, keep, last)
    ensures IsChain(t', cs[..keep], last)
  {
    ChainDistinct(t, cs, last);
    forall k | 0 <= k < keep - 1
      ensures t'[cs[k]] == cs[k + 1]
    {
      assert t[cs[k]] == cs[k + 1];
      BeforeCut(cs, keep, k);
    }
  }

  lemma BeforeCut(cs: seq<nat>, keep: nat, k: nat)
    requires Distinct(cs) && k < keep - 1 < |cs|
    ensures cs[k] !in cs[keep - 1..]
  {
    var tail := cs[keep - 1..];
    forall j | 0 <= j < |tail|
      ensures tail[j] != cs[k]
    {
      assert tail[j] == cs[keep - 1 + j];
    }
  }

  /** Truncating a file keeps the partition. */
  lemma CutKeeps(v: Volume, id: nat, keep: nat, v': Volume, last: nat)
    requires Partitioned(v, last) && id in v.files
    requires CutAt(v.table, v'.table, v.files[id], keep, last)
    requires v'.files == v.files[id := v.files[id][..keep]]
    ensures Partitioned(v', last)
  {
    hide IsChain;
    var cs := v.files[id];
    forall j | j in v.files && j != id
      ensures forall c :: c in v.files[j] ==> IsCluster(v'.table, c) && v'.table[c] == v.table[c]
    {
      forall c | c in v.files[j]
        ensures IsCluster(v'.table, c) && v'.table[c] == v.table[c]
      {
        OwnedNonzero(v, j, c, last);
        assert c !in cs;
      }
    }
    CutChain(v.table, v'.table, cs, keep, last);
    forall j | j in v'.files
      ensures IsChain(v'.table, v'.files[j], last)
    {
      if j != id {
        OthersKept(v, id, v'.table, j, last);
      }
    }
    forall c | IsCluster(v'.table, c) && v'.table[c] != 0
      ensures Owned(v', c)
    {
      CutOwned(v, id, keep, v', last, c);
    }
  }

  lemma CutOwned(v: Volume, id: nat, keep: nat, v': Volume, last: nat, c: nat)
    requires Partitioned(v, last) && id in v.files
    requires CutAt(v.table, v'.table, v.files[id], keep, last)
    requires v'.files == v.files[id := v.files[id][..keep]]
    requires IsCluster(v'.table, c) && v'.table[c] != 0
    ensures Owned(v', c)
  {
    hide IsChain;
    var cs := v.files[id];
    if c in cs {
      var k :| 0 <= k < |cs| && cs[k] == c;
      assert k < keep && cs[..keep][k] == c;
      assert id in v'.files && c in v'.files[id];
    } else {
      assert v'.table[c] == v.table[c] && Owned(v, c);
      var j :| j in v.files && c in v.files[j];
      assert j in v'.files && c in v'.files[j];
    }
  }

  lemma StepKeeps(v: Volume, op: Op, v': Volume, last: nat)
    requires Partitioned(v, last) && Step(v, op, v', last)
    ensures Partitioned(v', last)
  {
    match op
    case Create(id, added) =>
      assert [] + added == added;
      GrowKeeps(v, id, [], added, v', last);
    case Grow(id, added) =>
      GrowKeeps(v, id, v.files[id], added, v', last);
    case Release(id) =>
      ReleaseKeeps(v, id, v', last);
    case Cut(id, keep) =>
      CutKeeps(v, id, keep, v', last);
  }

  ghost predicate IsRun(vs: seq<Volume>, ops: seq<Op>, last: nat) {
    && |vs| == |ops| + 1
    && forall k :: 0 <= k < |ops| ==> Step(vs[k], ops[k], vs[k + 1], last)
  }

  /** Every volume that any sequence of operations reaches is partitioned. */
  lemma {:induction false} RunKeeps(vs: seq<Volume>, ops: seq<Op>, last: nat, k: nat)
    requires IsRun(vs, ops, last) && Partitioned(vs[0], last) && k < |vs|
    ensures Partitioned(vs[k], last)
  {
    if k > 0 {
      RunKeeps(vs, ops, last, k - 1);
      StepKeeps(vs[k - 1], ops[k - 1], vs[k], last);
    }
  }

  /** An operation on one file leaves every other file's chain as it was. */
  lemma StepFrame(v: Volume, op: Op, v': Volume, last: nat, j: nat)
    requires Partitioned(v, last) && Step(v, op, v', last) && j in v.files && j != op.id
    ensures j in v'.files && v'.files[j] == v.files[j] && IsChain(v'.table, v.files[j], last)
  {
    StepKeeps(v, op, v', last);
    assert v'.files[j] == v.files[j];
  }

  ghost predicate PlacedAt(v: Volume, c: nat, id: nat, k: int) {
    id in v.files && 0 <= k < |v.files[id]| && v.files[id][k] == c
  }

  /** A cluster is free or has exactly one place in exactly one file. */
  lemma ExactlyOnePlace(v: Volume, last: nat, c: nat)
    requires Partitioned(v, last) && IsCluster(v.table, c)
    ensures c in ZeroSet(v.table) <==> !Owned(v, c)
    ensures forall i, j, a, b :: PlacedAt(v, c, i, a) && PlacedAt(v, c, j, b) ==> i == j && a == b
  {
    if Owned(v, c) {
      var id :| id in v.files && c in v.files[id];
      OwnedNonzero(v, id, c, last);
    }
    forall i, j, a, b | PlacedAt(v, c, i, a) && PlacedAt(v, c, j, b)
      ensures i == j && a == b
    {
      ChainDistinct(v.table, v.files[i], last);
    }
  }
}
