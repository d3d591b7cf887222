/**
 The lock of a generated corpus: a hash per trace, one hash over all of them, and one per workload.

 A trace hash is a 64-character hexadecimal string, computed by a function about which collisions are stated
 where they matter; the hashes over sorted lists are their own preimages (an injective hash).
 */
module CorpusHash {
  import opened Wrappers
  import opened Sorting

  /** A trace dictionary: its top-level fields, each as canonical JSON. */
  type TraceDict = map<string, string>

  const WIDTH: nat := 64

  /** The generator crossed with the parameters of one trace; `name` is the key and the file name. */
  datatype Job = Job(workload: string, seed: string, difficulty: string)

  function Name(j: Job): string { j.workload + "_s" + j.seed + "_" + j.difficulty }

  /** `{k: v}` minus the two fields that change with every build. */
  function Stable(d: TraceDict): TraceDict { d - {"trace_id", "generated_at"} }

  function ContentHash(hex: TraceDict -> string, d: TraceDict): string { hex(Stable(d)) }

  ghost predicate FixedWidth(hex: TraceDict -> string) { forall d :: |hex(d)| == WIDTH }

  /** Stamps do not reach the hash, and barring a collision on the two contents everything else does. */
  lemma ContentHashIff(hex: TraceDict -> string, d: TraceDict, e: TraceDict)
    requires hex(Stable(d)) == hex(Stable(e)) ==> Stable(d) == Stable(e)
    ensures ContentHash(hex, d) == ContentHash(hex, e) <==>
      forall k :: k != "trace_id" && k != "generated_at" ==> (k in d <==> k in e) && (k in d && k in e ==> d[k] == e[k])
  {
    assert forall k :: k in Stable(d) <==> k in d && k != "trace_id" && k != "generated_at";
    assert forall k :: k in Stable(e) <==> k in e && k != "trace_id" && k != "generated_at";
    if forall k :: k != "trace_id" && k != "generated_at" ==> (k in d <==> k in e) && (k in d && k in e ==> d[k] == e[k]) {
      assert Stable(d) == Stable(e);
    }
  }

  // ----- The table of trace hashes -----

  /** A Python dict: keys are unique and keep the place of their first insertion. */
  datatype Entry = Entry(name: string, hash: string)

  function Put(entries: seq<Entry>, e: Entry): seq<Entry> {
    if entries == [] then [e]
    else if entries[0].name == e.name then [e] + entries[1..]
    else [entries[0]] + Put(entries[1..], e)
  }

  ghost predicate Unique(entries: seq<Entry>) {
    forall i, j :: 0 <= i < j < |entries| ==> entries[i].name != entries[j].name
  }

  lemma {:induction false} PutEntries(entries: seq<Entry>, e: Entry, x: Entry)
    requires Unique(entries)
    ensures Unique(Put(entries, e))
    ensures x in Put(entries, e) <==> x == e || (x in entries && x.name != e.name)
  {
    if entries == [] {
    } else if entries[0].name == e.name {
      assert entries == [entries[0]] + entries[1..];
    } else {
      var rest := Put(entries[1..], e);
      assert entries == [entries[0]] + entries[1..];
      PutEntries(entries[1..], e, x);
      forall i | 0 <= i < |rest|
        ensures rest[i].name != entries[0].name
      {
        assert rest[i] in rest;
        PutEntries(entries[1..], e, rest[i]);
      }
    }
  }

  /** The trace of each job, or nothing if its validation fails. */
  type Generator = Job -> Option<TraceDict>

  function EntryOf(g: Generator, hex: TraceDict -> string, j: Job): Entry
    requires g(j).Some?
  {
    Entry(Name(j), ContentHash(hex, g(j).value))
  }

  predicate AllValid(g: Generator, jobs: seq<Job>) { forall j :: j in jobs ==> g(j).Some? }

  function Table(g: Generator, hex: TraceDict -> string, jobs: seq<Job>): seq<Entry>
    requires AllValid(g, jobs)
  {
    if jobs == [] then []
    else
      assert AllValid(g, jobs[..|jobs| - 1]) && jobs[|jobs| - 1] in jobs;
      Put(Table(g, hex, jobs[..|jobs| - 1]), EntryOf(g, hex, jobs[|jobs| - 1]))
  }

  /** The build loop; one invalid trace aborts the corpus. */
  method BuildTable(g: Generator, hex: TraceDict -> string, jobs: seq<Job>) returns (r: Option<seq<Entry>>)
    ensures r.Some? <==> AllValid(g, jobs)
    ensures r.Some? ==> r.value == Table(g, hex, jobs)
  {
    var table := [];
    for i := 0 to |jobs|
      invariant AllValid(g, jobs[..i]) && table == Table(g, hex, jobs[..i])
    {
      var trace := g(jobs[i]);
      if trace.None? {
        assert jobs[i] in jobs;
        return None;
      }
      assert jobs[..i + 1] == jobs[..i] + [jobs[i]];
      assert jobs[..i + 1][..i] == jobs[..i];
      table := Put(table, Entry(Name(jobs[i]), ContentHash(hex, trace.value)));
    }
    assert jobs[..|jobs|] == jobs;
    r := Some(table);
  }

  /** Jobs that share a name share their trace hash. */
  ghost predicate NamesAgree(g: Generator, hex: TraceDict -> string, jobs: seq<Job>)
    requires AllValid(g, jobs)
  {
    forall a, b :: a in jobs && b in jobs && Name(a) == Name(b) ==> EntryOf(g, hex, a) == EntryOf(g, hex, b)
  }

  lemma {:induction false} TableEntries(g: Generator, hex: TraceDict -> string, jobs: seq<Job>, x: Entry)
    requires AllValid(g, jobs) && NamesAgree(g, hex, jobs)
    ensures Unique(Table(g, hex, jobs))
    ensures x in Table(g, hex, jobs) <==> exists j :: j in jobs && x == EntryOf(g, hex, j)
  {
    if jobs != [] {
      var front, last := jobs[..|jobs| - 1], jobs[|jobs| - 1];
      assert jobs == front + [last];
      assert AllValid(g, front) && forall j :: j in jobs <==> j in front || j == last;
      TableEntries(g, hex, front, x);
      PutEntries(Table(g, hex, front), EntryOf(g, hex, last), x);
    }
  }

  lemma {:induction false} UniqueCount(entries: seq<Entry>, x: Entry)
    requires Unique(entries)
    ensures multiset(entries)[x] == if x in entries then 1 else 0
  {
    if entries != [] {
      UniqueCount(entries[1..], x);
      assert entries == [entries[0]] + entries[1..];
    }
  }

  /** The table does not depend on the order, or on repetitions, of the jobs. */
  lemma TableOrderFree(g: Generator, hex: TraceDict -> string, jobs: seq<Job>, jobs': seq<Job>)
    requires AllValid(g, jobs) && NamesAgree(g, hex, jobs) && forall j :: j in jobs <==> j in jobs'
    ensures AllValid(g, jobs') && multiset(Table(g, hex, jobs)) == multiset(Table(g, hex, jobs'))
  {
    var t, t' := Table(g, hex, jobs), Table(g, hex, jobs');
    forall x
      ensures multiset(t)[x] == multiset(t')[x]
    {
      TableEntries(g, hex, jobs, x);
      TableEntries(g, hex, jobs', x);
      UniqueCount(t, x);
      UniqueCount(t', x);
    }
  }

  // ----- Hashes over sorted lists -----

  function Concat(parts: seq<string>): string {
    if parts == [] then [] else parts[0] + Concat(parts[1..])
  }

  datatype Digest = Blake2b(preimage: string)

  function ListHash(hashes: seq<string>): Digest { Blake2b(Concat(SortStrings(hashes))) }

  function Hashes(entries: seq<Entry>): seq<string> {
    if entries == [] then [] else Hashes(entries[..|entries| - 1]) + [entries[|entries| - 1].hash]
  }

  function CorpusHash(entries: seq<Entry>): Digest { ListHash(Hashes(entries)) }

  /** `name.split("_", 1)[0]` */
  function Prefix(name: string): string {
    if name == [] || name[0] == '_' then [] else [name[0]] + Prefix(name[1..])
  }

  function Group(entries: seq<Entry>, w: string): seq<string> {
    if entries == [] then []
    else
      var rest, last := Group(entries[..|entries| - 1], w), entries[|entries| - 1];
      if Prefix(last.name) == w then rest + [last.hash] else rest
  }

  function Rollup(entries: seq<Entry>, w: string): Digest { ListHash(Group(entries, w)) }

  /** The lists of hashes by workload, as the loop collects them, and their hashes. */
  method WorkloadHashes(entries: seq<Entry>) returns (rollups: map<string, Digest>)
    ensures forall w :: w in rollups <==> Group(entries, w) != []
    ensures forall w :: w in rollups ==> rollups[w] == Rollup(entries, w)
  {
    var byWorkload: map<string, seq<string>> := map[];
    for i := 0 to |entries|
      invariant forall w :: w in byWorkload ==> byWorkload[w] != []
      invariant forall w :: (if w in byWorkload then byWorkload[w] else []) == Group(entries[..i], w)
    {
      var w := Prefix(entries[i].name);
      assert entries[..i + 1] == entries[..i] + [entries[i]];
      assert entries[..i + 1][..i] == entries[..i];
      byWorkload := byWorkload[w := (if w in byWorkload then byWorkload[w] else []) + [entries[i].hash]];
    }
    assert entries[..|entries|] == entries;
    rollups := map w | w in byWorkload :: ListHash(byWorkload[w]);
  }

  ghost predicate Wide(hashes: seq<string>) { forall h :: h in hashes ==> |h| == WIDTH }

  /** Words of one width can be joined without losing where they end. */
  lemma {:induction false} ConcatInjective(a: seq<string>, b: seq<string>)
    requires Concat(a) == Concat(b)
    requires forall i :: 0 <= i < |a| ==> |a[i]| == WIDTH
    requires forall i :: 0 <= i < |b| ==> |b[i]| == WIDTH
    ensures a == b
  {
    if a != [] && b != [] {
      assert a[0] == Concat(a)[..WIDTH] && b[0] == Concat(b)[..WIDTH];
      assert Concat(a[1..]) == Concat(a)[WIDTH..] && Concat(b[1..]) == Concat(b)[WIDTH..];
      ConcatInjective(a[1..], b[1..]);
      assert a == [a[0]] + a[1..] && b == [b[0]] + b[1..];
    }
  }

  lemma SortedWide(hashes: seq<string>)
    requires Wide(hashes)
    ensures forall i :: 0 <= i < |SortStrings(hashes)| ==> |SortStrings(hashes)[i]| == WIDTH
  {
    StringOrder();
    forall i | 0 <= i < |SortStrings(hashes)|
      ensures |SortStrings(hashes)[i]| == WIDTH
    {
      SortPermutes(StringLeq, hashes, SortStrings(hashes)[i]);
    }
  }

  lemma ListHashIff(a: seq<string>, b: seq<string>)
    requires Wide(a) && Wide(b)
    ensures ListHash(a) == ListHash(b) <==> multiset(a) == multiset(b)
  {
    SortStringsCanonical(a, b);
    SortedWide(a);
    SortedWide(b);
    if ListHash(a) == ListHash(b) {
      ConcatInjective(SortStrings(a), SortStrings(b));
    }
  }

  ghost predicate WideEntries(entries: seq<Entry>) { forall e :: e in entries ==> |e.hash| == WIDTH }

  lemma {:induction false} HashesWide(entries: seq<Entry>, w: string)
    requires WideEntries(entries)
    ensures Wide(Hashes(entries)) && Wide(Group(entries, w))
  {
    if entries != [] {
      var front, last := entries[..|entries| - 1], entries[|entries| - 1];
      assert entries == front + [last];
      assert forall e :: e in front ==> e in entries;
      HashesWide(front, w);
    }
  }

  /** The corpus hash stands for the multiset of trace hashes: in any order, and for nothing less. */
  lemma CorpusHashIff(a: seq<Entry>, b: seq<Entry>)
    requires WideEntries(a) && WideEntries(b)
    ensures CorpusHash(a) == CorpusHash(b) <==> multiset(Hashes(a)) == multiset(Hashes(b))
  {
    HashesWide(a, "");
    HashesWide(b, "");
    ListHashIff(Hashes(a), Hashes(b));
  }

  /** A rollup stands for the multiset of its own workload's trace hashes, whatever else the corpus holds. */
  lemma RollupIff(a: seq<Entry>, b: seq<Entry>, w: string)
    requires WideEntries(a) && WideEntries(b)
    ensures Rollup(a, w) == Rollup(b, w) <==> multiset(Group(a, w)) == multiset(Group(b, w))
  {
    HashesWide(a, w);
    HashesWide(b, w);
    ListHashIff(Group(a, w), Group(b, w));
  }

  lemma {:induction false} GroupAppend(a: seq<Entry>, b: seq<Entry>, w: string)
    ensures Group(a + b, w) == Group(a, w) + Group(b, w)
    decreases |b|
  {
    if b == [] {
      assert a + b == a;
    } else {
      assert (a + b)[..|a + b| - 1] == a + b[..|b| - 1];
      GroupAppend(a, b[..|b| - 1], w);
    }
  }

  lemma {:induction false} OtherWorkloads(b: seq<Entry>, w: string)
    requires forall i :: 0 <= i < |b| ==> Prefix(b[i].name) != w
    ensures Group(b, w) == []
  {
    if b != [] {
      OtherWorkloads(b[..|b| - 1], w);
    }
  }

  /** Traces of other workloads, before, between or after, never move a rollup. */
  lemma AddedWorkloadKeepsRollup(a: seq<Entry>, b: seq<Entry>, c: seq<Entry>, w: string)
    requires forall i :: 0 <= i < |b| ==> Prefix(b[i].name) != w
    ensures Rollup(a + b + c, w) == Rollup(a + c, w)
  {
    OtherWorkloads(b, w);
    GroupAppend(a + b, c, w);
    GroupAppend(a, b, w);
    GroupAppend(a, c, w);
    assert Group(a, w) + [] == Group(a, w);
  }

  /** With one workload its rollup is the corpus hash. */
  lemma {:induction false} SingleWorkload(entries: seq<Entry>, w: string)
    requires forall i :: 0 <= i < |entries| ==> Prefix(entries[i].name) == w
    ensures Group(entries, w) == Hashes(entries) && Rollup(entries, w) == CorpusHash(entries)
  {
    if entries != [] {
      SingleWorkload(entries[..|entries| - 1], w);
    }
  }

  lemma {:induction false} PrefixOf(w: string, rest: string)
    requires '_' !in w
    ensures Prefix(w + "_" + rest) == w
  {
    if w == [] {
      assert (w + "_" + rest)[0] == '_';
    } else {
      assert (w + "_" + rest)[1..] == w[1..] + "_" + rest;
      assert (w + "_" + rest)[0] == w[0];
      PrefixOf(w[1..], rest);
      assert w == [w[0]] + w[1..];
    }
  }

  lemma {:induction false} PrefixPlain(name: string)
    ensures '_' !in Prefix(name)
  {
    if name != [] && name[0] != '_' {
      PrefixPlain(name[1..]);
    }
  }

  /** A trace is rolled up under its own workload exactly when the workload's name holds no underscore. */
  lemma RolledUpUnderOwnWorkloadIff(j: Job)
    ensures Prefix(Name(j)) == j.workload <==> '_' !in j.workload
  {
    if '_' !in j.workload {
      PrefixOf(j.workload, "s" + j.seed + "_" + j.difficulty);
      assert Name(j) == j.workload + "_" + ("s" + j.seed + "_" + j.difficulty);
    }
    PrefixPlain(Name(j));
  }

  /** Jobs whose workload and seed hold no underscore have different names. */
  lemma PlainNamesDistinguish(a: Job, b: Job)
    requires '_' !in a.workload && '_' !in b.workload && '_' !in a.seed && '_' !in b.seed
    requires Name(a) == Name(b)
    ensures a == b
  {
    RolledUpUnderOwnWorkloadIff(a);
    RolledUpUnderOwnWorkloadIff(b);
    var k := |a.workload| + 2;
    assert Name(a)[k..] == a.seed + "_" + a.difficulty;
    assert Name(b)[k..] == b.seed + "_" + b.difficulty;
    PrefixOf(a.seed, a.difficulty);
    PrefixOf(b.seed, b.difficulty);
    assert Name(a)[k..][|a.seed| + 1..] == a.difficulty;
    assert Name(b)[k..][|b.seed| + 1..] == b.difficulty;
  }

  lemma {:induction false} TableWide(g: Generator, hex: TraceDict -> string, jobs: seq<Job>)
    requires AllValid(g, jobs) && FixedWidth(hex)
    ensures WideEntries(Table(g, hex, jobs))
  {
    if jobs != [] {
      assert AllValid(g, jobs[..|jobs| - 1]) && jobs[|jobs| - 1] in jobs;
      TableWide(g, hex, jobs[..|jobs| - 1]);
      PutWide(Table(g, hex, jobs[..|jobs| - 1]), EntryOf(g, hex, jobs[|jobs| - 1]));
    }
  }

  lemma {:induction false} PutWide(entries: seq<Entry>, e: Entry)
    requires WideEntries(entries) && |e.hash| == WIDTH
    ensures WideEntries(Put(entries, e))
  {
    if entries != [] {
      assert entries[0] in entries && forall x :: x in entries[1..] ==> x in entries;
      PutWide(entries[1..], e);
    }
  }

  lemma HashesPull(front: seq<Entry>, e: Entry, back: seq<Entry>)
    ensures multiset(Hashes(front + [e] + back)) == multiset(Hashes(front + back)) + multiset{e.hash}
  {
    HashesAppend(front + [e], back);
    HashesAppend(front, [e]);
    HashesAppend(front, back);
    assert Hashes([e]) == [e.hash];
  }

  lemma GroupPull(front: seq<Entry>, e: Entry, back: seq<Entry>, w: string)
    ensures multiset(Group(front + [e] + back, w)) == multiset(Group(front + back, w)) + multiset(Group([e], w))
  {
    GroupAppend(front + [e], back, w);
    GroupAppend(front, [e], w);
    GroupAppend(front, back, w);
  }

  lemma Around(b: seq<Entry>, e: Entry, rest: multiset<Entry>) returns (front: seq<Entry>, back: seq<Entry>)
    requires multiset(b) == rest + multiset{e}
    ensures b == front + [e] + back && multiset(front + back) == rest
  {
    assert e in multiset(b);
    var i :| 0 <= i < |b| && b[i] == e;
    front, back := b[..i], b[i + 1..];
    assert b == front + [e] + back;
    Cancel(front, e, back, rest);
  }

  lemma Cancel(front: seq<Entry>, e: Entry, back: seq<Entry>, rest: multiset<Entry>)
    requires multiset(front + [e] + back) == rest + multiset{e}
    ensures multiset(front + back) == rest
  {
    assert multiset(front + back) + multiset{e} == rest + multiset{e};
    forall x ensures multiset(front + back)[x] == rest[x] {
      assert (multiset(front + back) + multiset{e})[x] == (rest + multiset{e})[x];
    }
  }

  lemma {:induction false} HashesPermuted(a: seq<Entry>, b: seq<Entry>)
    requires multiset(a) == multiset(b)
    ensures multiset(Hashes(a)) == multiset(Hashes(b))
  {
    if a == [] {
      assert |multiset(b)| == |b|;
    } else {
      var rest, e := a[..|a| - 1], a[|a| - 1];
      assert a == rest + [e];
      var front, back := Around(b, e, multiset(rest));
      HashesPermuted(rest, front + back);
      HashesPull(front, e, back);
    }
  }

  lemma {:induction false} GroupPermuted(a: seq<Entry>, b: seq<Entry>, w: string)
    requires multiset(a) == multiset(b)
    ensures multiset(Group(a, w)) == multiset(Group(b, w))
  {
    if a == [] {
      assert |multiset(b)| == |b|;
    } else {
      var rest, e := a[..|a| - 1], a[|a| - 1];
      assert a == rest + [e];
      var front, back := Around(b, e, multiset(rest));
      GroupPermuted(rest, front + back, w);
      GroupPull(front, e, back, w);
      GroupAppend(rest, [e], w);
    }
  }

  lemma {:induction false} HashesAppend(a: seq<Entry>, b: seq<Entry>)
    ensures Hashes(a + b) == Hashes(a) + Hashes(b)
    decreases |b|
  {
    if b == [] {
      assert a + b == a;
    } else {
      assert (a + b)[..|a + b| - 1] == a + b[..|b| - 1];
      HashesAppend(a, b[..|b| - 1]);
    }
  }

  /** Whatever order, and however often, the jobs are generated in, the lock's hashes come out the same. */
  lemma LockOrderFree(g: Generator, hex: TraceDict -> string, jobs: seq<Job>, jobs': seq<Job>)
    requires AllValid(g, jobs) && NamesAgree(g, hex, jobs) && forall j :: j in jobs <==> j in jobs'
    ensures AllValid(g, jobs')
    ensures CorpusHash(Table(g, hex, jobs)) == CorpusHash(Table(g, hex, jobs'))
    ensures forall w :: Rollup(Table(g, hex, jobs), w) == Rollup(Table(g, hex, jobs'), w)
  {
    var t, t' := Table(g, hex, jobs), Table(g, hex, jobs');
    TableOrderFree(g, hex, jobs, jobs');
    HashesPermuted(t, t');
    SortStringsCanonical(Hashes(t), Hashes(t'));
    forall w
      ensures Rollup(t, w) == Rollup(t', w)
    {
      GroupPermuted(t, t', w);
      SortStringsCanonical(Group(t, w), Group(t', w));
    }
  }

  // ----- When the generation order matters -----

  /** Same corpus hash and same rollups. */
  ghost predicate SameLock(g: Generator, hex: TraceDict -> string, jobs: seq<Job>, jobs': seq<Job>)
    requires AllValid(g, jobs) && AllValid(g, jobs')
  {
    && CorpusHash(Table(g, hex, jobs)) == CorpusHash(Table(g, hex, jobs'))
    && forall w :: Rollup(Table(g, hex, jobs), w) == Rollup(Table(g, hex, jobs'), w)
  }

  ghost predicate Reordered(jobs: seq<Job>, jobs': seq<Job>) { multiset(jobs') == multiset(jobs) }

  lemma ReorderedSame(g: Generator, jobs: seq<Job>, jobs': seq<Job>)
    requires Reordered(jobs, jobs') && AllValid(g, jobs)
    ensures AllValid(g, jobs') && forall j :: j in jobs <==> j in jobs'
  {
    assert forall j :: (j in jobs <==> j in multiset(jobs)) && (j in jobs' <==> j in multiset(jobs'));
  }

  lemma {:induction false} PutPut(entries: seq<Entry>, a: Entry, b: Entry)
    requires a.name == b.name
    ensures Put(Put(entries, b), a) == Put(entries, a)
  {
    if entries != [] && entries[0].name != a.name {
      PutPut(entries[1..], a, b);
      assert ([entries[0]] + Put(entries[1..], b))[1..] == Put(entries[1..], b);
    } else if entries != [] {
      assert ([b] + entries[1..])[1..] == entries[1..];
    }
  }

  lemma HashesCons(e: Entry, rest: seq<Entry>)
    ensures multiset(Hashes([e] + rest)) == multiset{e.hash} + multiset(Hashes(rest))
  {
    HashesAppend([e], rest);
    assert Hashes([e]) == [e.hash];
  }

  /** The hashes after a Put, but for the one put. */
  function Others(entries: seq<Entry>, name: string): multiset<string> {
    if entries == [] then multiset{}
    else if entries[0].name == name then multiset(Hashes(entries[1..]))
    else multiset{entries[0].hash} + Others(entries[1..], name)
  }

  lemma {:induction false} PutHashes(entries: seq<Entry>, e: Entry)
    ensures multiset(Hashes(Put(entries, e))) == Others(entries, e.name) + multiset{e.hash}
  {
    if entries == [] {
      assert Hashes([e]) == [e.hash];
    } else if entries[0].name == e.name {
      HashesCons(e, entries[1..]);
    } else {
      PutHashes(entries[1..], e);
      HashesCons(entries[0], Put(entries[1..], e));
    }
  }

  lemma TableSnoc(g: Generator, hex: TraceDict -> string, jobs: seq<Job>, j: Job)
    requires AllValid(g, jobs) && g(j).Some?
    ensures AllValid(g, jobs + [j]) && Table(g, hex, jobs + [j]) == Put(Table(g, hex, jobs), EntryOf(g, hex, j))
  {
    assert (jobs + [j])[..|jobs|] == jobs;
  }

  /** Whichever of two jobs of one name but different hashes comes last decides the corpus hash. */
  lemma LastDecides(g: Generator, hex: TraceDict -> string, rest: seq<Job>, a: Job, b: Job)
    requires AllValid(g, rest) && g(a).Some? && g(b).Some? && FixedWidth(hex)
    requires Name(a) == Name(b) && EntryOf(g, hex, a) != EntryOf(g, hex, b)
    ensures AllValid(g, rest + [a] + [b]) && AllValid(g, rest + [b] + [a])
    ensures CorpusHash(Table(g, hex, rest + [a] + [b])) != CorpusHash(Table(g, hex, rest + [b] + [a]))
  {
    var x, y, t := EntryOf(g, hex, a), EntryOf(g, hex, b), Table(g, hex, rest);
    TableSnoc(g, hex, rest, a);
    TableSnoc(g, hex, rest, b);
    TableSnoc(g, hex, rest + [a], b);
    TableSnoc(g, hex, rest + [b], a);
    PutPut(t, y, x);
    PutPut(t, x, y);
    PutHashes(t, x);
    PutHashes(t, y);
    TableWide(g, hex, rest + [a] + [b]);
    TableWide(g, hex, rest + [b] + [a]);
    CorpusHashIff(Put(t, y), Put(t, x));
    if multiset(Hashes(Put(t, x))) == multiset(Hashes(Put(t, y))) {
      SameSingle(Others(t, x.name), x.hash, y.hash);
    }
  }

  lemma SameSingle(m: multiset<string>, a: string, b: string)
    requires m + multiset{b} == m + multiset{a}
    ensures a == b
  {
    assert (m + multiset{b})[a] == (m + multiset{a})[a] == m[a] + 1;
  }

  lemma TakeOne(jobs: seq<Job>, a: Job) returns (rest: seq<Job>)
    requires a in jobs
    ensures multiset(jobs) == multiset(rest) + multiset{a}
  {
    var i :| 0 <= i < |jobs| && jobs[i] == a;
    rest := jobs[..i] + jobs[i + 1..];
    assert jobs == jobs[..i] + [a] + jobs[i + 1..];
  }

  lemma TakeTwo(jobs: seq<Job>, a: Job, b: Job) returns (rest: seq<Job>)
    requires a in jobs && b in jobs && a != b
    ensures Reordered(jobs, rest + [a] + [b]) && Reordered(jobs, rest + [b] + [a])
  {
    var once := TakeOne(jobs, a);
    assert b in multiset(jobs) && b in multiset(once);
    rest := TakeOne(once, b);
  }

  /** Two jobs of one name but different hashes: some order of generation moves the lock. */
  lemma OrderMatters(g: Generator, hex: TraceDict -> string, jobs: seq<Job>, a: Job, b: Job) returns (jobs': seq<Job>)
    requires AllValid(g, jobs) && FixedWidth(hex) && a in jobs && b in jobs
    requires Name(a) == Name(b) && EntryOf(g, hex, a) != EntryOf(g, hex, b)
    ensures Reordered(jobs, jobs') && AllValid(g, jobs')
    ensures CorpusHash(Table(g, hex, jobs')) != CorpusHash(Table(g, hex, jobs))
  {
    var rest := TakeTwo(jobs, a, b);
    var one, other := rest + [a] + [b], rest + [b] + [a];
    ReorderedSame(g, jobs, one);
    ReorderedSame(g, jobs, other);
    assert forall j :: j in rest ==> j in one;
    LastDecides(g, hex, rest, a, b);
    jobs' := if CorpusHash(Table(g, hex, one)) != CorpusHash(Table(g, hex, jobs)) then one else other;
  }

  ghost predicate Moves(g: Generator, hex: TraceDict -> string, jobs: seq<Job>, jobs': seq<Job>)
    requires AllValid(g, jobs)
  {
    Reordered(jobs, jobs') && !(AllValid(g, jobs') && SameLock(g, hex, jobs, jobs'))
  }

  /** The lock depends on the generation order exactly when two jobs share a name but not their hash. */
  lemma LockMovesIff(g: Generator, hex: TraceDict -> string, jobs: seq<Job>)
    requires AllValid(g, jobs) && FixedWidth(hex)
    ensures (exists jobs' :: Moves(g, hex, jobs, jobs')) <==> !NamesAgree(g, hex, jobs)
  {
    if a, b :| a in jobs && b in jobs && Name(a) == Name(b) && EntryOf(g, hex, a) != EntryOf(g, hex, b) {
      var jobs' := OrderMatters(g, hex, jobs, a, b);
      assert Moves(g, hex, jobs, jobs');
    }
    forall jobs' | NamesAgree(g, hex, jobs) && Reordered(jobs, jobs')
      ensures !Moves(g, hex, jobs, jobs')
    {
      ReorderedSame(g, jobs, jobs');
      LockOrderFree(g, hex, jobs, jobs');
    }
  }
}
