/** Chains, runs and free space of a FAT, as mathematics over the table. */
module FatChains {

  /** One entry of an ordered {first cluster: length} dictionary. */
  datatype Run = Run(start: nat, len: nat)

  function Interval(s: nat, n: nat): (cs: seq<nat>)
    ensures |cs| == n
    ensures forall k :: 0 <= k < n ==> cs[k] == s + k
  {
    seq(n, k requires 0 <= k < n => s + k)
  }

  lemma InInterval(s: nat, n: nat, c: nat)
    ensures c in Interval(s, n) <==> s <= c < s + n
  {
    if s <= c < s + n {
      assert Interval(s, n)[c - s] == c;
    }
  }

  /** The clusters of a run list, in file order. */
  function Flatten(runs: seq<Run>): seq<nat> {
    if runs == [] then []
    else Flatten(runs[..|runs| - 1]) + Interval(runs[|runs| - 1].start, runs[|runs| - 1].len)
  }

  predicate Positive(runs: seq<Run>) { forall k :: 0 <= k < |runs| ==> runs[k].len > 0 }

  /** Dictionary store: replaces the value of a known key, appends a new one. */
  function Put(runs: seq<Run>, s: nat, n: nat): seq<Run> {
    if runs == [] then [Run(s, n)]
    else if runs[0].start == s then [Run(s, n)] + runs[1..]
    else [runs[0]] + Put(runs[1..], s, n)
  }

  predicate HasKey(runs: seq<Run>, s: nat) { exists k :: 0 <= k < |runs| && runs[k].start == s }

  lemma {:induction false} PutNew(runs: seq<Run>, s: nat, n: nat)
    requires !HasKey(runs, s)
    ensures Put(runs, s, n) == runs + [Run(s, n)]
  {
    if runs != [] {
      assert runs[0].start != s;
      forall k | 0 <= k < |runs[1..]|
        ensures runs[1..][k].start != s
      {
        assert runs[1..][k] == runs[k + 1];
      }
      PutNew(runs[1..], s, n);
      assert [runs[0]] + (runs[1..] + [Run(s, n)]) == runs + [Run(s, n)];
    }
  }

  lemma {:induction false} PutLast(runs: seq<Run>, n: nat)
    requires runs != []
    requires forall k :: 0 <= k < |runs| - 1 ==> runs[k].start != runs[|runs| - 1].start
    ensures Put(runs, runs[|runs| - 1].start, n) == runs[..|runs| - 1] + [Run(runs[|runs| - 1].start, n)]
  {
    var s := runs[|runs| - 1].start;
    if |runs| == 1 {
      assert runs[1..] == [] && runs[..0] == [];
    } else {
      assert runs[0].start != s;
      assert runs[1..][|runs| - 2] == runs[|runs| - 1];
      forall k | 0 <= k < |runs[1..]| - 1
        ensures runs[1..][k].start != s
      {
        assert runs[1..][k] == runs[k + 1];
      }
      PutLast(runs[1..], n);
      assert [runs[0]] + runs[1..][..|runs| - 2] == runs[..|runs| - 1];
    }
  }

  /** Where run k of a run list stands in the flattened chain. */
  lemma {:induction false} FlattenAt(runs: seq<Run>, k: nat)
    requires k < |runs|
    ensures var a := |Flatten(runs[..k])|;
      && a + runs[k].len <= |Flatten(runs)|
      && Flatten(runs)[..a] == Flatten(runs[..k])
      && Flatten(runs)[a..a + runs[k].len] == Interval(runs[k].start, runs[k].len)
  {
    var z := |runs| - 1;
    var a := |Flatten(runs[..k])|;
    var tail := Interval(runs[z].start, runs[z].len);
    if k < z {
      FlattenAt(runs[..z], k);
      assert runs[..z][..k] == runs[..k];
      PrefixSlices(Flatten(runs[..z]), tail, a, runs[k].len);
    } else {
      assert Flatten(runs)[a..] == tail;
      assert Flatten(runs)[..a] == Flatten(runs[..k]);
    }
  }

  lemma PrefixSlices(a: seq<nat>, b: seq<nat>, i: nat, n: nat)
    requires i + n <= |a|
    ensures (a + b)[..i] == a[..i] && (a + b)[i..i + n] == a[i..i + n]
  {
  }

  /** Where cluster j of run k stands. */
  lemma FlattenIndex(runs: seq<Run>, k: nat, j: nat)
    requires k < |runs| && j < runs[k].len
    ensures |Flatten(runs[..k])| + j < |Flatten(runs)|
    ensures Flatten(runs)[|Flatten(runs[..k])| + j] == runs[k].start + j
  {
    FlattenAt(runs, k);
    var a := |Flatten(runs[..k])|;
    assert Flatten(runs)[a + j] == Flatten(runs)[a..a + runs[k].len][j];
  }

  lemma FlattenNext(runs: seq<Run>, k: nat)
    requires k < |runs|
    ensures Flatten(runs[..k + 1]) == Flatten(runs[..k]) + Interval(runs[k].start, runs[k].len)
  {
    assert runs[..k + 1][..k] == runs[..k];
  }

  lemma FlattenSnoc(runs: seq<Run>, r: Run)
    ensures Flatten(runs + [r]) == Flatten(runs) + Interval(r.start, r.len)
  {
    assert (runs + [r])[..|runs|] == runs;
  }

  /** Lengthening the last run by the clusters that follow it on disk. */
  lemma FlattenGrow(front: seq<Run>, l: Run, n: nat)
    ensures Flatten(front + [Run(l.start, l.len + n)]) == Flatten(front + [l]) + Interval(l.start + l.len, n)
  {
    FlattenSnoc(front, l);
    FlattenSnoc(front, Run(l.start, l.len + n));
    Regroup(Flatten(front), Interval(l.start, l.len), Interval(l.start + l.len, n), Interval(l.start, l.len + n));
  }

  lemma Regroup(a: seq<nat>, b: seq<nat>, c: seq<nat>, bc: seq<nat>)
    requires bc == b + c
    ensures a + bc == a + b + c
  {
  }

  /** A run's first cluster is in the chain, so a free cluster is no key. */
  lemma KeysInChain(runs: seq<Run>, c: nat)
    requires Positive(runs) && c !in Flatten(runs)
    ensures !HasKey(runs, c)
  {
    forall k | 0 <= k < |runs|
      ensures runs[k].start != c
    {
      FlattenIndex(runs, k, 0);
    }
  }

  predicate Distinct(cs: seq<nat>) { forall i, j :: 0 <= i < j < |cs| ==> cs[i] != cs[j] }

  lemma DistinctKeys(runs: seq<Run>)
    requires Positive(runs) && Distinct(Flatten(runs)) && runs != []
    ensures forall k :: 0 <= k < |runs| - 1 ==> runs[k].start != runs[|runs| - 1].start
  {
    hide Flatten;
    var z := |runs| - 1;
    FlattenIndex(runs, z, 0);
    forall k | 0 <= k < z
      ensures runs[k].start != runs[z].start
    {
      FlattenIndex(runs, k, 0);
      FlattenIndex(runs[..z], k, 0);
      assert runs[..z][..k] == runs[..k];
    }
  }

  /** How an allocation enters run [i, i+n) in its run list: a contiguous run lengthens the last one. */
  function Record(runs: seq<Run>, i: nat, n: nat): seq<Run> {
    if runs != [] && i == runs[|runs| - 1].start + runs[|runs| - 1].len then
      Put(runs, runs[|runs| - 1].start, n + runs[|runs| - 1].len)
    else Put(runs, i, n)
  }

  lemma RecordFlattens(runs: seq<Run>, i: nat, n: nat)
    requires Positive(runs) && Distinct(Flatten(runs)) && n > 0 && i !in Flatten(runs)
    ensures Positive(Record(runs, i, n))
    ensures Flatten(Record(runs, i, n)) == Flatten(runs) + Interval(i, n)
  {
    hide Flatten, Put;
    if runs != [] && i == runs[|runs| - 1].start + runs[|runs| - 1].len {
      var l := runs[|runs| - 1];
      DistinctKeys(runs);
      PutLast(runs, n + l.len);
      FlattenGrow(runs[..|runs| - 1], l, n);
      assert runs[..|runs| - 1] + [l] == runs;
    } else {
      KeysInChain(runs, i);
      PutNew(runs, i, n);
      FlattenSnoc(runs, Run(i, n));
    }
  }

  /** A store under a key that the first runs do not have goes to the others. */
  lemma {:induction false} PutBehind(lost: seq<Run>, rest: seq<Run>, s: nat, n: nat)
    requires !HasKey(lost, s)
    ensures Put(lost + rest, s, n) == lost + Put(rest, s, n)
  {
    if lost == [] {
      assert lost + rest == rest;
    } else {
      var l, more := lost[0], lost[1..];
      assert lost == [l] + more && l.start != s;
      NoKeyInRest(lost, s);
      hide HasKey;
      PutBehind(more, rest, s, n);
      assert (lost + rest)[0] == l && (lost + rest)[1..] == more + rest;
      assert Put(lost + rest, s, n) == [l] + Put(more + rest, s, n);
      hide Put;
      assert [l] + (more + Put(rest, s, n)) == lost + Put(rest, s, n);
    }
  }

  lemma NoKeyInRest(runs: seq<Run>, s: nat)
    requires runs != [] && !HasKey(runs, s)
    ensures !HasKey(runs[1..], s)
  {
    forall k | 0 <= k < |runs[1..]| ensures runs[1..][k].start != s {
      assert runs[1..][k] == runs[k + 1];
    }
  }

  lemma {:induction false} FlattenBoth(a: seq<Run>, b: seq<Run>)
    ensures Flatten(a + b) == Flatten(a) + Flatten(b)
  {
    if b == [] {
      assert a + b == a;
    } else {
      var front, r := b[..|b| - 1], b[|b| - 1];
      assert b == front + [r] && a + b == (a + front) + [r];
      FlattenBoth(a, front);
      FlattenSnoc(front, r);
      FlattenSnoc(a + front, r);
      hide Flatten;
      assert Flatten(a) + Flatten(front) + Interval(r.start, r.len) == Flatten(a) + (Flatten(front) + Interval(r.start, r.len));
    }
  }

  /** The end of the last run. */
  function EndOfRuns(runs: seq<Run>): nat
    requires runs != []
  {
    runs[|runs| - 1].start + runs[|runs| - 1].len
  }

  /** A run list that ends outside a table of n entries: no cluster can be linked behind it. */
  ghost predicate Strays(runs: seq<Run>, n: nat) { runs != [] && EndOfRuns(runs) > n }

  /** Runs with no free cluster for a key: those a stray list starts with. */
  ghost predicate Lost(lost: seq<Run>, t: seq<nat>) {
    Positive(lost) && (lost != [] ==> Strays(lost, |t|)) && forall k :: 0 <= k < |lost| ==> lost[k].start !in ZeroSet(t)
  }

  /** What an allocation is linked behind. */
  ghost function Behind(runs: seq<Run>, n: nat): seq<nat> { if Strays(runs, n) then [] else Flatten(runs) }

  /** What an allocation may start from: nothing, a chain, or a stray list. */
  ghost predicate Growable(t: seq<nat>, runs: seq<Run>, last: nat) {
    Positive(runs) && (if Strays(runs, |t|) then Lost(runs, t) else Flatten(runs) == [] || IsChain(t, Flatten(runs), last))
  }

  lemma ChainGrowable(t: seq<nat>, runs: seq<Run>, last: nat)
    requires Positive(runs) && (Flatten(runs) == [] || IsChain(t, Flatten(runs), last))
    ensures Growable(t, runs, last) && Behind(runs, |t|) == Flatten(runs)
  {
    if runs != [] {
      LastOf(runs);
      assert IsCluster(t, Flatten(runs)[|Flatten(runs)| - 1]);
    }
  }

  /** A run of free clusters enters a list behind its lost runs. */
  lemma RecordBehind(t: seq<nat>, lost: seq<Run>, rest: seq<Run>, i: nat, n: nat)
    requires Lost(lost, t) && i in ZeroSet(t) && (lost != [] && rest != [] ==> rest[|rest| - 1].start in ZeroSet(t))
    ensures Record(lost + rest, i, n) == lost + Record(rest, i, n)
  {
    hide Put;
    if lost == [] {
      assert lost + rest == rest;
    } else {
      PutBehind(lost, rest, i, n);
      if rest != [] {
        var l := rest[|rest| - 1];
        assert (lost + rest)[|lost + rest| - 1] == l;
        PutBehind(lost, rest, l.start, n + l.len);
      } else {
        assert lost + rest == lost;
      }
    }
  }

  /** The last cluster of a run list. */
  lemma LastOf(runs: seq<Run>)
    requires Positive(runs) && runs != []
    ensures Flatten(runs) != []
    ensures Flatten(runs)[|Flatten(runs)| - 1] == runs[|runs| - 1].start + runs[|runs| - 1].len - 1
  {
  }

  /** A data cluster of table t. */
  predicate IsCluster(t: seq<nat>, c: int) { 2 <= c < |t| }

  predicate Clusters(t: seq<nat>, cs: seq<nat>) { forall k :: 0 <= k < |cs| ==> IsCluster(t, cs[k]) }

  predicate Linked(t: seq<nat>, cs: seq<nat>)
    requires Clusters(t, cs)
  {
    forall k :: 0 <= k < |cs| - 1 ==> t[cs[k]] == cs[k + 1]
  }

  /** islast: the mark the driver writes, or one of the seven above it. */
  predicate IsLast(v: nat, last: nat) { last <= v <= last + 7 }

  /** cs is a chain of t: linked, and ended by an end mark. */
  predicate IsChain(t: seq<nat>, cs: seq<nat>, last: nat) {
    && cs != []
    && Clusters(t, cs)
    && Linked(t, cs)
    && IsLast(t[cs[|cs| - 1]], last)
  }

  /** The end mark of a chain. */
  function EndOf(t: seq<nat>, cs: seq<nat>, last: nat): (mark: nat)
    requires IsChain(t, cs, last)
    ensures IsLast(mark, last)
  {
    t[cs[|cs| - 1]]
  }

  /** How many clusters count_run makes of a mark: one, or two if the driver's own comes next. */
  function StrayLen(mark: nat, last: nat): nat { if !IsLast(mark, last) && mark + 1 == last then 2 else 1 }

  lemma NotLast(t: seq<nat>, cs: seq<nat>, last: nat, k: nat)
    requires IsChain(t, cs, last) && |t| <= last && k < |cs| - 1
    ensures t[cs[k]] < last
  {
    assert IsCluster(t, cs[k + 1]);
  }

  /** A chain visits no cluster twice: following a loop would never meet the end mark. */
  lemma ChainDistinct(t: seq<nat>, cs: seq<nat>, last: nat)
    requires IsChain(t, cs, last) && |t| <= last
    ensures Distinct(cs)
  {
    forall i, j | 0 <= i < j < |cs|
      ensures cs[i] != cs[j]
    {
      if cs[i] == cs[j] {
        SameTail(t, cs, i, j, |cs| - 1 - j);
        NotLast(t, cs, last, i + (|cs| - 1 - j));
        assert false;
      }
    }
  }

  lemma {:induction false} SameTail(t: seq<nat>, cs: seq<nat>, i: nat, j: nat, k: nat)
    requires Clusters(t, cs) && Linked(t, cs) && i < j && j + k < |cs| && cs[i] == cs[j]
    ensures cs[i + k] == cs[j + k]
  {
    if k > 0 {
      SameTail(t, cs, i, j, k - 1);
      assert t[cs[i + (k - 1)]] == cs[i + (k - 1) + 1];
      assert t[cs[j + (k - 1)]] == cs[j + (k - 1) + 1];
    }
  }

  /** Two chains that share a cluster end alike: from there on they are the same. */
  lemma {:induction false} SharedSuffix(t: seq<nat>, a: seq<nat>, b: seq<nat>, last: nat, i: nat, j: nat)
    requires IsChain(t, a, last) && IsChain(t, b, last) && |t| <= last
    requires i < |a| && j < |b| && a[i] == b[j]
    ensures a[i..] == b[j..]
    decreases |a| - i
  {
    if i == |a| - 1 {
      if j < |b| - 1 {
        NotLast(t, b, last, j);
      }
    } else if j == |b| - 1 {
      NotLast(t, a, last, i);
    } else {
      assert t[a[i]] == a[i + 1] && t[b[j]] == b[j + 1];
      SharedSuffix(t, a, b, last, i + 1, j + 1);
      assert a[i..] == [a[i]] + a[i + 1..];
      assert b[j..] == [b[j]] + b[j + 1..];
    }
  }

  /** Free space: {first cluster: length}, and the clusters it covers. */
  type FreeMap = map<nat, nat>

  ghost predicate Covers(m: FreeMap, c: nat) { exists s :: s in m && s <= c < s + m[s] }

  ghost function FreeSet(m: FreeMap, n: nat): set<nat> { set c | 2 <= c < n && Covers(m, c) }

  /** Mapped runs are nonempty, inside the table and disjoint. */
  ghost predicate RunsOk(m: FreeMap, n: nat) {
    && (forall s :: s in m ==> 2 <= s && 0 < m[s] && s + m[s] <= n)
    && (forall s, r :: s in m && r in m && s < r ==> s + m[s] <= r)
  }

  ghost function ZeroSet(t: seq<nat>): set<nat> { set c | 2 <= c < |t| && t[c] == 0 }

  ghost predicate InSpan(s: nat, n: nat, c: nat) { s <= c < s + n }

  ghost function Span(s: nat, n: nat): set<nat> { set c | s <= c < s + n && InSpan(s, n, c) }

  lemma {:induction false} SpanSize(s: nat, n: nat)
    ensures |Span(s, n)| == n
  {
    if n > 0 {
      SpanSize(s, n - 1);
      assert Span(s, n) == Span(s, n - 1) + {s + n - 1};
    } else {
      assert Span(s, n) == {};
    }
  }

  /** Taking the first k clusters of a mapped run out of the map. */
  lemma TakeRun(m: FreeMap, n: nat, s: nat, k: nat, m': FreeMap)
    requires RunsOk(m, n) && s in m && 0 < k <= m[s]
    requires m' == if k < m[s] then (m - {s})[s + k := m[s] - k] else m - {s}
    ensures RunsOk(m', n)
    ensures Span(s, k) <= FreeSet(m, n)
    ensures FreeSet(m', n) == FreeSet(m, n) - Span(s, k)
    ensures |FreeSet(m', n)| == |FreeSet(m, n)| - k
  {
    forall c | c in Span(s, k)
      ensures c in FreeSet(m, n)
    {
      Member(m, n, s, c);
    }
    TakeRunOk(m, n, s, k, m');
    hide RunsOk;
    forall c | 2 <= c < n
      ensures Covers(m', c) <==> Covers(m, c) && c !in Span(s, k)
    {
      TakeRunAt(m, n, s, k, m', c);
    }
    assert FreeSet(m', n) == FreeSet(m, n) - Span(s, k) by {
      hide Covers, Span;
    }
    SpanSize(s, k);
  }

  lemma TakeRunOk(m: FreeMap, n: nat, s: nat, k: nat, m': FreeMap)
    requires RunsOk(m, n) && s in m && 0 < k <= m[s]
    requires m' == if k < m[s] then (m - {s})[s + k := m[s] - k] else m - {s}
    ensures RunsOk(m', n)
  {
  }

  lemma TakeRunAt(m: FreeMap, n: nat, s: nat, k: nat, m': FreeMap, c: nat)
    requires RunsOk(m, n) && s in m && 0 < k <= m[s]
    requires m' == if k < m[s] then (m - {s})[s + k := m[s] - k] else m - {s}
    ensures Covers(m', c) <==> Covers(m, c) && c !in Span(s, k)
  {
    if Covers(m', c) {
      var r :| r in m' && r <= c < r + m'[r];
      if r in m && m'[r] == m[r] && r != s {
        assert Covers(m, c);
      } else {
        assert s <= c < s + m[s];
      }
    }
    if Covers(m, c) && c !in Span(s, k) {
      var r :| r in m && r <= c < r + m[r];
      if r == s {
        assert s + k in m' && s + k <= c < s + k + m'[s + k];
      } else {
        assert r in m' && m'[r] == m[r];
      }
    }
  }

  /** Adding a run of clusters that the map does not cover. */
  lemma AddRun(m: FreeMap, n: nat, s: nat, k: nat)
    requires RunsOk(m, n) && 2 <= s && 0 < k && s + k <= n
    requires Span(s, k) !! FreeSet(m, n)
    ensures s !in m
    ensures RunsOk(m[s := k], n)
    ensures FreeSet(m[s := k], n) == FreeSet(m, n) + Span(s, k)
    ensures |FreeSet(m[s := k], n)| == |FreeSet(m, n)| + k
  {
    var m' := m[s := k];
    assert s !in m by {
      if s in m {
        AddRunApart(m, n, s, k, s);
      }
    }
    AddRunOk(m, n, s, k);
    forall c | 2 <= c < n
      ensures Covers(m', c) <==> Covers(m, c) || c in Span(s, k)
    {
      AddRunAt(m, s, k, c);
    }
    assert FreeSet(m', n) == FreeSet(m, n) + Span(s, k);
    SpanSize(s, k);
  }

  lemma Member(m: FreeMap, n: nat, r: nat, c: nat)
    requires r in m && r <= c < r + m[r] && 2 <= c < n
    ensures c in FreeSet(m, n)
  {
    assert Covers(m, c);
  }

  lemma AddRunOk(m: FreeMap, n: nat, s: nat, k: nat)
    requires RunsOk(m, n) && 2 <= s && 0 < k && s + k <= n && s !in m
    requires Span(s, k) !! FreeSet(m, n)
    ensures RunsOk(m[s := k], n)
  {
    forall r | r in m
      ensures r + m[r] <= s || s + k <= r
    {
      AddRunApart(m, n, s, k, r);
    }
  }

  lemma AddRunApart(m: FreeMap, n: nat, s: nat, k: nat, r: nat)
    requires RunsOk(m, n) && 2 <= s && 0 < k && s + k <= n && r in m
    requires Span(s, k) !! FreeSet(m, n)
    ensures r + m[r] <= s || s + k <= r
  {
    if !(r + m[r] <= s || s + k <= r) {
      var c := if s <= r then r else s;
      assert InSpan(s, k, c);
      Member(m, n, r, c);
      assert false;
    }
  }

  lemma AddRunAt(m: FreeMap, s: nat, k: nat, c: nat)
    requires s !in m
    ensures Covers(m[s := k], c) <==> Covers(m, c) || c in Span(s, k)
  {
    var m' := m[s := k];
    if Covers(m, c) {
      var r :| r in m && r <= c < r + m[r];
      assert r in m' && m'[r] == m[r];
    }
    if c in Span(s, k) {
      assert s in m' && s <= c < s + m'[s];
    }
    if Covers(m', c) && c !in Span(s, k) {
      var r :| r in m' && r <= c < r + m'[r];
      assert r in m && m'[r] == m[r];
    }
  }

  /** No mapped run is followed by another one. */
  predicate NoneAdjacent(m: FreeMap) { forall s {:trigger Touches(m, s)} :: s in m ==> !Touches(m, s) }

  predicate Touches(m: FreeMap, s: nat)
    requires s in m
  {
    s + m[s] in m
  }

  /** Map d covers the same clusters as m, with runs that start where runs of m start. */
  ghost predicate SameSpace(m: FreeMap, d: FreeMap, n: nat) {
    RunsOk(m, n) && RunsOk(d, n) && FreeSet(d, n) == FreeSet(m, n)
  }

  /** Runs of d only grew, and only those visited; a visited one touches no other, k apart. */
  ghost predicate Merged(m: FreeMap, d: FreeMap, todo: set<nat>, k: int) {
    && d.Keys <= m.Keys
    && (forall j {:trigger d[j]} :: j in d ==> m[j] <= d[j] && (j in todo ==> d[j] == m[j]))
    && (forall j {:trigger Touches(d, j)} :: j in d && j !in todo && j != k ==> !Touches(d, j))
  }

  /** Every run of m that is gone from d was absorbed by an earlier, already visited one. */
  ghost predicate AllAbsorbed(m: FreeMap, d: FreeMap, todo: set<nat>) {
    forall j {:trigger Absorbed(m, d, todo, j)} :: j in m && j !in d ==> Absorbed(m, d, todo, j)
  }

  ghost predicate Absorbed(m: FreeMap, d: FreeMap, todo: set<nat>, j: nat)
    requires j in m
  {
    exists p :: p in d && p !in todo && p < j && j + m[j] <= p + d[p]
  }

  /** State of a compaction pass over map m: d is the copy being merged, todo the runs to visit. */
  ghost predicate Compacting(m: FreeMap, d: FreeMap, todo: set<nat>, n: nat) {
    && SameSpace(m, d, n) && Merged(m, d, todo, -1) && AllAbsorbed(m, d, todo)
    && (d == m || |d| < |m|)
  }

  /** The inner loop: while a run follows [k, k+v) directly, merge it. */
  function Extend(d: FreeMap, k: nat, v: nat): FreeMap
    decreases |d|
  {
    if k + v in d then
      var d' := d[k := v + d[k + v]] - {k + v};
      if |d'| < |d| then Extend(d', k, v + d[k + v]) else d'
    else d
  }

  /** Visiting one run keeps the pass going; a run already absorbed finds nothing to merge. */
  lemma VisitRun(m: FreeMap, d: FreeMap, todo: set<nat>, n: nat, k: nat)
    requires Compacting(m, d, todo, n) && k in todo && todo <= m.Keys
    ensures Compacting(m, Extend(d, k, m[k]), todo - {k}, n)
  {
    StillAbsorbed(m, d, todo, k);
    if k in d {
      ExtendMerges(m, d, todo - {k}, n, k);
    } else {
      AbsorbedEnds(m, d, todo, n, k);
    }
  }

  lemma NothingVisited(m: FreeMap, n: nat)
    requires RunsOk(m, n)
    ensures Compacting(m, m, m.Keys, n)
  {
  }

  lemma AllVisited(m: FreeMap, d: FreeMap, n: nat)
    requires Compacting(m, d, {}, n)
    ensures RunsOk(d, n) && FreeSet(d, n) == FreeSet(m, n) && NoneAdjacent(d)
    ensures d == m || |d| < |m|
  {
  }

  lemma VisitReady(m: FreeMap, d: FreeMap, todo: set<nat>, n: nat, k: nat)
    requires Compacting(m, d, todo, n) && k in todo && todo <= m.Keys
    ensures k in d ==> d[k] == m[k]
    ensures k !in d ==> k + m[k] !in d
    ensures forall j :: j in d ==> d[j] > 0
  {
    if k !in d {
      AbsorbedEnds(m, d, todo, n, k);
    }
  }

  lemma StillAbsorbed(m: FreeMap, d: FreeMap, todo: set<nat>, k: nat)
    requires AllAbsorbed(m, d, todo)
    ensures AllAbsorbed(m, d, todo - {k})
  {
    forall j | j in m && j !in d
      ensures Absorbed(m, d, todo - {k}, j)
    {
      assert Absorbed(m, d, todo, j);
      var p :| p in d && p !in todo && p < j && j + m[j] <= p + d[p];
    }
  }

  lemma AbsorbedEnds(m: FreeMap, d: FreeMap, todo: set<nat>, n: nat, k: nat)
    requires RunsOk(d, n) && Merged(m, d, todo, -1) && AllAbsorbed(m, d, todo) && k in m && k !in d
    requires m[k] > 0
    ensures k + m[k] !in d
  {
    assert Absorbed(m, d, todo, k);
    var p :| p in d && p !in todo && p < k && k + m[k] <= p + d[p];
    assert !Touches(d, p);
  }

  lemma {:induction false} ExtendMerges(m: FreeMap, d: FreeMap, todo: set<nat>, n: nat, k: nat)
    requires SameSpace(m, d, n) && Merged(m, d, todo, k) && AllAbsorbed(m, d, todo)
    requires d == m || |d| < |m|
    requires k in d && k !in todo
    ensures Compacting(m, Extend(d, k, d[k]), todo, n)
    decreases |d|
  {
    hide Covers, RunsOk;
    if Touches(d, k) {
      var d' := MergeStep(m, d, todo, n, k);
      ExtendMerges(m, d', todo, n, k);
    } else {
      hide SameSpace, AllAbsorbed;
      DoneExtending(m, d, todo, k);
    }
  }

  lemma MergeStep(m: FreeMap, d: FreeMap, todo: set<nat>, n: nat, k: nat) returns (d': FreeMap)
    requires SameSpace(m, d, n) && Merged(m, d, todo, k) && AllAbsorbed(m, d, todo)
    requires k in d && k !in todo && Touches(d, k)
    ensures SameSpace(m, d', n) && Merged(m, d', todo, k) && AllAbsorbed(m, d', todo)
    ensures |d'| < |d| && k in d' && Extend(d, k, d[k]) == Extend(d', k, d'[k])
  {
    d' := d[k := d[k] + d[k + d[k]]] - {k + d[k]};
    hide Merged, AllAbsorbed, SameSpace;
    MergeCovers(m, d, n, k, d');
    MergeKeys(m, d, todo, k, d');
    MergeAllAbsorbed(m, d, todo, k, d');
    ExtendStep(d, k, d');
  }

  lemma ExtendStep(d: FreeMap, k: nat, d': FreeMap)
    requires k in d && d[k] > 0 && Touches(d, k)
    requires d' == d[k := d[k] + d[k + d[k]]] - {k + d[k]}
    ensures |d'| < |d| && k in d' && Extend(d, k, d[k]) == Extend(d', k, d'[k])
  {
    MergeSize(d, k, d');
  }

  lemma DoneExtending(m: FreeMap, d: FreeMap, todo: set<nat>, k: nat)
    requires Merged(m, d, todo, k) && k in d && !Touches(d, k)
    ensures Merged(m, d, todo, -1)
  {
  }

  lemma MergeSize(d: FreeMap, k: nat, d': FreeMap)
    requires k in d && k + d[k] in d && d[k] > 0
    requires d' == d[k := d[k] + d[k + d[k]]] - {k + d[k]}
    ensures |d'| == |d| - 1
  {
    assert d'.Keys == d.Keys - {k + d[k]};
    assert |d.Keys| == |d| && |d'.Keys| == |d'|;
  }

  lemma MergeKeys(m: FreeMap, d: FreeMap, todo: set<nat>, k: nat, d': FreeMap)
    requires Merged(m, d, todo, k) && k in d && k !in todo && Touches(d, k) && d[k] > 0
    requires d' == d[k := d[k] + d[k + d[k]]] - {k + d[k]}
    ensures Merged(m, d', todo, k) && k in d'
  {
    forall j | j in d' && j !in todo && j != k
      ensures !Touches(d', j)
    {
      assert !Touches(d, j);
    }
  }

  lemma MergeAllAbsorbed(m: FreeMap, d: FreeMap, todo: set<nat>, k: nat, d': FreeMap)
    requires Merged(m, d, todo, k) && AllAbsorbed(m, d, todo) && k in d && k !in todo && Touches(d, k) && d[k] > 0
    requires d' == d[k := d[k] + d[k + d[k]]] - {k + d[k]}
    ensures AllAbsorbed(m, d', todo)
  {
    forall j | j in m && j !in d'
      ensures Absorbed(m, d', todo, j)
    {
      MergeAbsorbs(m, d, todo, k, d', j);
    }
  }

  lemma MergeAbsorbs(m: FreeMap, d: FreeMap, todo: set<nat>, k: nat, d': FreeMap, j: nat)
    requires Merged(m, d, todo, k) && AllAbsorbed(m, d, todo) && k in d && k !in todo && Touches(d, k) && d[k] > 0
    requires d' == d[k := d[k] + d[k + d[k]]] - {k + d[k]}
    requires j in m && j !in d'
    ensures Absorbed(m, d', todo, j)
  {
    var q := k + d[k];
    if j == q {
      assert k in d' && k !in todo && k < j && j + m[j] <= k + d'[k];
    } else {
      assert Absorbed(m, d, todo, j);
      var p :| p in d && p !in todo && p < j && j + m[j] <= p + d[p];
      if p == q || p == k {
        assert k in d' && k !in todo && k < j && j + m[j] <= k + d'[k];
      } else {
        assert p in d' && d'[p] == d[p];
      }
    }
  }

  lemma MergeCovers(m: FreeMap, d: FreeMap, n: nat, k: nat, d': FreeMap)
    requires SameSpace(m, d, n) && k in d && Touches(d, k)
    requires d' == d[k := d[k] + d[k + d[k]]] - {k + d[k]}
    ensures SameSpace(m, d', n) && d[k] > 0
  {
    MergeRunsOk(d, n, k, d');
    forall c | 2 <= c < n
      ensures Covers(d', c) <==> Covers(d, c)
    {
      MergeCoversAt(d, n, k, d', c);
    }
    assert FreeSet(d', n) == FreeSet(d, n);
  }

  lemma MergeRunsOk(d: FreeMap, n: nat, k: nat, d': FreeMap)
    requires RunsOk(d, n) && k in d && Touches(d, k)
    requires d' == d[k := d[k] + d[k + d[k]]] - {k + d[k]}
    ensures RunsOk(d', n)
  {
  }

  lemma MergeCoversAt(d: FreeMap, n: nat, k: nat, d': FreeMap, c: nat)
    requires RunsOk(d, n) && k in d && Touches(d, k)
    requires d' == d[k := d[k] + d[k + d[k]]] - {k + d[k]}
    ensures Covers(d', c) <==> Covers(d, c)
  {
    var q := k + d[k];
    if Covers(d, c) {
      var r :| r in d && r <= c < r + d[r];
      if r == q || r == k {
        assert k in d' && k <= c < k + d'[k];
      } else {
        assert r in d' && d'[r] == d[r];
      }
    }
    if Covers(d', c) {
      var r :| r in d' && r <= c < r + d'[r];
      if r == k && c >= q {
        assert q in d && q <= c < q + d[q];
      } else {
        assert r in d && r <= c < r + d[r];
      }
    }
  }

  /** Taking clusters from the front of a run makes no two runs adjacent. */
  lemma TakeKeepsApart(m: FreeMap, n: nat, s: nat, k: nat, m': FreeMap)
    requires RunsOk(m, n) && s in m && 0 < k <= m[s] && NoneAdjacent(m)
    requires m' == if k < m[s] then (m - {s})[s + k := m[s] - k] else m - {s}
    ensures NoneAdjacent(m')
  {
    assert !Touches(m, s);
    forall r | r in m'
      ensures !Touches(m', r)
    {
      if r in m {
        assert !Touches(m, r);
      }
    }
  }

  /** t' is t with the clusters of added, all free before, linked behind cs; the last entry is open. */
  ghost predicate Growing(t: seq<nat>, t': seq<nat>, cs: seq<nat>, added: seq<nat>) {
    && |t'| == |t|
    && Clusters(t, cs) && Clusters(t, added) && Distinct(cs + added)
    && (forall k :: 0 <= k < |added| - 1 ==> t'[added[k]] == added[k + 1])
    && (cs != [] && added != [] ==> t'[cs[|cs| - 1]] == added[0])
    && (forall c :: IsCluster(t, c) && c !in added && !(cs != [] && added != [] && c == cs[|cs| - 1])
          ==> t'[c] == t[c])
  }

  /** The effect of an allocation on the table: added was free and now ends the chain cs. */
  ghost predicate Grown(t: seq<nat>, t': seq<nat>, cs: seq<nat>, added: seq<nat>, last: nat) {
    && Growing(t, t', cs, added)
    && added != []
    && (forall k :: 0 <= k < |added| ==> t[added[k]] == 0)
    && t'[added[|added| - 1]] == last
  }

  /** One round of the allocation: run [i, i+n) is marked, then the previous tail points to it. */
  lemma GrowStep(t: seq<nat>, t0: seq<nat>, cs: seq<nat>, added: seq<nat>, i: nat, n: nat, t1: seq<nat>, t2: seq<nat>)
    requires Growing(t, t0, cs, added)
    requires 2 <= i && 0 < n && i + n <= |t|
    requires forall k :: 0 <= k < |cs + added| ==> !InSpan(i, n, (cs + added)[k])
    requires |t1| == |t| && |t2| == |t|
    requires forall k :: i <= k < i + n - 1 ==> t1[k] == k + 1
    requires forall c :: IsCluster(t, c) && !InSpan(i, n, c) ==> t1[c] == t0[c]
    requires forall c :: IsCluster(t, c) ==>
      t2[c] == if cs + added != [] && c == (cs + added)[|cs + added| - 1] then i else t1[c]
    ensures Growing(t, t2, cs, added + Interval(i, n))
  {
    var more := added + Interval(i, n);
    GrowDistinct(cs, added, i, n);
    forall k | 0 <= k < |more| - 1
      ensures t2[more[k]] == more[k + 1]
    {
      GrowLink(t, t0, cs, added, i, n, t1, t2, k);
    }
    if cs != [] {
      assert (cs + added)[|cs| - 1] == cs[|cs| - 1];
      assert added != [] ==> (cs + added)[|cs + added| - 1] == added[|added| - 1];
      assert !InSpan(i, n, (cs + added)[|cs| - 1]);
      assert added != [] ==> (cs + added)[|cs| + (|added| - 1)] != (cs + added)[|cs| - 1];
    }
    forall c | IsCluster(t, c) && c !in more && !(cs != [] && more != [] && c == cs[|cs| - 1])
      ensures t2[c] == t[c]
    {
      GrowOther(t, t0, cs, added, i, n, t1, t2, c);
    }
  }

  lemma GrowDistinct(cs: seq<nat>, added: seq<nat>, i: nat, n: nat)
    requires Distinct(cs + added)
    requires forall k :: 0 <= k < |cs + added| ==> !InSpan(i, n, (cs + added)[k])
    ensures Distinct(cs + (added + Interval(i, n)))
  {
    var x := cs + (added + Interval(i, n));
    assert x == (cs + added) + Interval(i, n);
    forall a, b | 0 <= a < b < |x|
      ensures x[a] != x[b]
    {
      if b >= |cs + added| {
        assert InSpan(i, n, x[b]);
        if a < |cs + added| {
          assert x[a] == (cs + added)[a];
        }
      } else {
        assert x[a] == (cs + added)[a] && x[b] == (cs + added)[b];
      }
    }
  }

  lemma GrowLink(t: seq<nat>, t0: seq<nat>, cs: seq<nat>, added: seq<nat>, i: nat, n: nat, t1: seq<nat>,
      t2: seq<nat>, k: nat)
    requires Growing(t, t0, cs, added)
    requires 2 <= i && 0 < n && i + n <= |t| && |t1| == |t| && |t2| == |t|
    requires forall j :: 0 <= j < |cs + added| ==> !InSpan(i, n, (cs + added)[j])
    requires forall j :: i <= j < i + n - 1 ==> t1[j] == j + 1
    requires forall c :: IsCluster(t, c) && !InSpan(i, n, c) ==> t1[c] == t0[c]
    requires forall c :: IsCluster(t, c) ==>
      t2[c] == if cs + added != [] && c == (cs + added)[|cs + added| - 1] then i else t1[c]
    requires k < |added| + n - 1
    ensures t2[(added + Interval(i, n))[k]] == (added + Interval(i, n))[k + 1]
  {
    var x := cs + added;
    if k < |added| {
      assert x[|cs| + k] == added[k];
      assert !InSpan(i, n, x[|cs| + k]);
      assert IsCluster(t, added[k]);
      if k < |added| - 1 {
        assert x[|cs| + k] != x[|x| - 1];
      }
    } else {
      var c := i + (k - |added|);
      assert IsCluster(t, c) && InSpan(i, n, c);
      assert x != [] ==> !InSpan(i, n, x[|x| - 1]);
    }
  }

  lemma GrowOther(t: seq<nat>, t0: seq<nat>, cs: seq<nat>, added: seq<nat>, i: nat, n: nat, t1: seq<nat>,
      t2: seq<nat>, c: nat)
    requires Growing(t, t0, cs, added)
    requires 2 <= i && 0 < n && i + n <= |t| && |t1| == |t| && |t2| == |t|
    requires forall d :: IsCluster(t, d) && !InSpan(i, n, d) ==> t1[d] == t0[d]
    requires forall d :: IsCluster(t, d) ==>
      t2[d] == if cs + added != [] && d == (cs + added)[|cs + added| - 1] then i else t1[d]
    requires IsCluster(t, c) && c !in added + Interval(i, n) && !(cs != [] && c == cs[|cs| - 1])
    ensures t2[c] == t[c]
  {
    var x := cs + added;
    assert c !in added;
    assert added != [] ==> x[|x| - 1] == added[|added| - 1];
    if InSpan(i, n, c) {
      InTail(added, i, n, c);
    }
  }

  lemma InTail(cs: seq<nat>, i: nat, n: nat, c: nat)
    requires InSpan(i, n, c)
    ensures c in cs + Interval(i, n)
  {
    assert (cs + Interval(i, n))[|cs| + (c - i)] == c;
  }

  /** A grown chain is a chain again, one cluster list longer. */
  lemma GrownChain(t: seq<nat>, t': seq<nat>, cs: seq<nat>, added: seq<nat>, last: nat)
    requires Grown(t, t', cs, added, last) && (cs == [] || IsChain(t, cs, last)) && |t| <= last
    ensures IsChain(t', cs + added, last)
  {
    var x := cs + added;
    forall k | 0 <= k < |x|
      ensures IsCluster(t', x[k])
    {
      assert k < |cs| ==> IsCluster(t, cs[k]);
      assert k >= |cs| ==> IsCluster(t, added[k - |cs|]);
    }
    forall k | 0 <= k < |x| - 1
      ensures t'[x[k]] == x[k + 1]
    {
      if k >= |cs| {
        assert t'[added[k - |cs|]] == added[k - |cs| + 1];
      } else if k < |cs| - 1 {
        GrownElsewhere(t, t', cs, added, last, k);
      }
    }
  }

  /** Clusters linked behind nothing: a chain of their own, and no other chain gets longer. */
  lemma Unlinked(t: seq<nat>, t': seq<nat>, cs: seq<nat>, low: nat, added: seq<nat>, last: nat)
    requires IsChain(t, cs, low) && |t| <= low && |t| <= last && Grown(t, t', [], added, last)
    ensures IsChain(t', cs, low) && EndOf(t', cs, low) == EndOf(t, cs, low)
    ensures IsChain(t', added, last) && forall c :: c in cs ==> c !in added
  {
    GrownChain(t, t', [], added, last);
    assert [] + added == added;
    forall k | 0 <= k < |cs|
      ensures cs[k] !in added && IsCluster(t', cs[k]) && t'[cs[k]] == t[cs[k]]
    {
      ChainEntry(t, cs, low, k);
    }
  }

  lemma GrownElsewhere(t: seq<nat>, t': seq<nat>, cs: seq<nat>, added: seq<nat>, last: nat, k: nat)
    requires Grown(t, t', cs, added, last) && IsChain(t, cs, last) && k < |cs| - 1
    ensures t'[cs[k]] == cs[k + 1]
  {
    var x := cs + added;
    assert t[cs[k]] == cs[k + 1] && IsCluster(t, cs[k]) && IsCluster(t, cs[k + 1]);
    assert x[k] == cs[k] && x[|cs| - 1] == cs[|cs| - 1];
    forall j | 0 <= j < |added|
      ensures added[j] != cs[k]
    {
      assert x[|cs| + j] == added[j];
    }
  }

  /** An allocation under way: what the loop keeps while added grows. */
  ghost predicate Allocating(t: seq<nat>, t': seq<nat>, cs: seq<nat>, added: seq<nat>, free: set<nat>, runs: seq<Run>) {
    && Growing(t, t', cs, added)
    && (forall c :: c in free <==> c in ZeroSet(t) && c !in added)
    && (forall k :: 0 <= k < |added| ==> added[k] in ZeroSet(t))
    && Positive(runs) && Flatten(runs) == cs + added
  }

  /** Table t2 is t0 with run [i, i+n) linked up to its open end, and the tail of runs pointing to it. */
  ghost predicate Marked(t0: seq<nat>, t2: seq<nat>, runs: seq<Run>, i: nat, n: nat) {
    && 2 <= i && 0 < n && i + n <= |t0| && |t2| == |t0|
    && (exists t1: seq<nat> :: MarkedRun(t0, t1, i, n) && TailTo(t1, t2, runs, i))
  }

  ghost predicate TailTo(t1: seq<nat>, t2: seq<nat>, runs: seq<Run>, i: nat) {
    if runs == [] || Strays(runs, |t1|) then t2 == t1 else 0 < EndOfRuns(runs) && t2 == t1[EndOfRuns(runs) - 1 := i]
  }

  ghost predicate MarkedRun(t0: seq<nat>, t1: seq<nat>, i: nat, n: nat) {
    && |t1| == |t0| && i + n <= |t0|
    && (forall c: nat :: c < |t0| && !InSpan(i, n, c) ==> t1[c] == t0[c])
    && (forall c :: i <= c < i + n - 1 ==> t1[c] == c + 1)
  }

  /** After an allocation the free clusters are again those with a zero entry. */
  lemma GrownFree(t: seq<nat>, t': seq<nat>, cs: seq<nat>, added: seq<nat>, last: nat, free: set<nat>)
    requires Grown(t, t', cs, added, last) && (cs == [] || IsChain(t, cs, last)) && |t| <= last
    requires forall c :: c in free <==> c in ZeroSet(t) && c !in added
    ensures free == ZeroSet(t')
  {
    GrownChain(t, t', cs, added, last);
    forall c | IsCluster(t, c)
      ensures c in free <==> t'[c] == 0
    {
      if c in added {
        var k :| 0 <= k < |added| && added[k] == c;
        assert (cs + added)[|cs| + k] == c;
        ChainEntry(t', cs + added, last, |cs| + k);
      } else if cs != [] && c == cs[|cs| - 1] {
        assert t'[c] == added[0] && IsCluster(t, added[0]);
        assert t[c] >= last;
      }
    }
  }

  /** Entries of a chain are never zero, so its clusters are not free. */
  lemma ChainEntry(t: seq<nat>, cs: seq<nat>, last: nat, k: nat)
    requires IsChain(t, cs, last) && |t| <= last && k < |cs|
    ensures IsCluster(t, cs[k]) && t[cs[k]] != 0
    ensures cs[k] !in ZeroSet(t)
  {
    if k < |cs| - 1 {
      assert t[cs[k]] == cs[k + 1] && IsCluster(t, cs[k + 1]);
    }
  }

  /** t' is t with the entries of cs zeroed. */
  ghost predicate Released(t: seq<nat>, t': seq<nat>, cs: seq<nat>) {
    && |t'| == |t|
    && (forall k :: 0 <= k < |cs| ==> IsCluster(t, cs[k]) && t'[cs[k]] == 0)
    && (forall c :: IsCluster(t, c) && c !in cs ==> t'[c] == t[c])
  }

  /** t' is t with the run [s, s+n) zeroed. */
  ghost predicate Cleared(t: seq<nat>, t': seq<nat>, s: nat, n: nat) {
    && |t'| == |t| && 2 <= s && 0 < n && s + n <= |t|
    && (forall c: nat :: c < |t| && !InSpan(s, n, c) ==> t'[c] == t[c])
    && (forall c: nat :: c < |t| && InSpan(s, n, c) ==> t'[c] == 0)
  }

  /** The same, and cluster c made the end of its chain. */
  ghost predicate ClearedTo(t: seq<nat>, t': seq<nat>, s: nat, n: nat, c: nat, last: nat) {
    && |t'| == |t| && 2 <= s && 0 < n && s + n <= |t| && IsCluster(t, c) && !InSpan(s, n, c)
    && t'[c] == last
    && (forall x: nat :: x < |t| && x != c && !InSpan(s, n, x) ==> t'[x] == t[x])
    && (forall x: nat :: x < |t| && InSpan(s, n, x) ==> t'[x] == 0)
  }

  /** A chain released up to its cluster k: the rest is still a chain. */
  ghost predicate Releasing(t: seq<nat>, t': seq<nat>, cs: seq<nat>, last: nat, k: nat) {
    && k <= |cs|
    && Released(t, t', cs[..k])
    && (k < |cs| ==> IsChain(t', cs[k..], last))
  }

  lemma NothingReleased(t: seq<nat>, cs: seq<nat>, last: nat)
    requires IsChain(t, cs, last)
    ensures Releasing(t, t, cs, last, 0)
  {
    assert cs[0..] == cs;
  }

  lemma ReleaseStep(t: seq<nat>, t0: seq<nat>, cs: seq<nat>, last: nat, k: nat, s: nat, n: nat, t1: seq<nat>)
    requires IsChain(t, cs, last) && |t| <= last
    requires Releasing(t, t0, cs, last, k) && k < |cs|
    requires 0 < n <= |cs| - k && cs[k..][..n] == Interval(s, n)
    requires Cleared(t0, t1, s, n)
    ensures Releasing(t, t1, cs, last, k + n)
  {
    ChainDistinct(t, cs, last);
    RunAt(cs, k, s, n);
    ReleaseTail(t, t0, cs, last, k, s, n, t1);
    forall j | 0 <= j < k + n
      ensures IsCluster(t, cs[j]) && t1[cs[j]] == 0
    {
      if j < k {
        assert cs[..k][j] == cs[j];
      } else {
        assert cs[k + (j - k)] == s + (j - k);
      }
    }
    forall c | IsCluster(t, c) && c !in cs[..k + n]
      ensures t1[c] == t[c]
    {
      PrefixMembers(cs, k, k + n, s, n, c);
    }
  }

  lemma RunAt(cs: seq<nat>, k: nat, s: nat, n: nat)
    requires k + n <= |cs| && cs[k..][..n] == Interval(s, n)
    ensures forall i :: k <= i < k + n ==> cs[i] == s + (i - k)
  {
    forall i | k <= i < k + n
      ensures cs[i] == s + (i - k)
    {
      assert cs[k..][..n][i - k] == cs[i];
    }
  }

  lemma PrefixMembers(cs: seq<nat>, i: nat, j: nat, s: nat, n: nat, c: nat)
    requires i <= j <= |cs| && j == i + n
    requires forall k :: i <= k < j ==> cs[k] == s + (k - i)
    ensures c in cs[..i] ==> c in cs[..j]
    ensures InSpan(s, n, c) ==> c in cs[..j]
  {
    if c in cs[..i] {
      var k :| 0 <= k < i && cs[..i][k] == c;
      assert cs[..j][k] == c;
    }
    if InSpan(s, n, c) {
      assert cs[..j][i + (c - s)] == c;
    }
  }

  lemma ReleaseTail(t: seq<nat>, t0: seq<nat>, cs: seq<nat>, last: nat, k: nat, s: nat, n: nat, t1: seq<nat>)
    requires Distinct(cs) && |t| <= last && |t0| == |t|
    requires k < |cs| && IsChain(t0, cs[k..], last)
    requires 0 < n <= |cs| - k
    requires forall i :: k <= i < k + n ==> cs[i] == s + (i - k)
    requires |t1| == |t0|
    requires forall c: nat :: c < |t0| && !InSpan(s, n, c) ==> t1[c] == t0[c]
    ensures k + n < |cs| ==> IsChain(t1, cs[k + n..], last)
  {
    if k + n < |cs| {
      var a, b := cs[k..], cs[k + n..];
      forall j | 0 <= j < |b|
        ensures b[j] == a[n + j] && IsCluster(t1, b[j]) && t1[b[j]] == t0[b[j]]
      {
        assert b[j] == a[n + j] && IsCluster(t0, a[n + j]);
        NotInRun(cs, k, s, n, k + n + j);
      }
      forall j | 0 <= j < |b| - 1
        ensures t1[b[j]] == b[j + 1]
      {
        assert t0[a[n + j]] == a[n + j + 1];
      }
    }
  }

  lemma NotInRun(cs: seq<nat>, k: nat, s: nat, n: nat, i: nat)
    requires Distinct(cs) && k + n <= i < |cs|
    requires forall j :: k <= j < k + n ==> cs[j] == s + (j - k)
    ensures !InSpan(s, n, cs[i])
  {
    if InSpan(s, n, cs[i]) {
      Differs(cs, k + (cs[i] - s), i);
    }
  }

  lemma Differs(cs: seq<nat>, a: nat, b: nat)
    requires Distinct(cs) && a < b < |cs|
    ensures cs[a] != cs[b]
  {
  }
}
