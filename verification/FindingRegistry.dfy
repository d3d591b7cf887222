/**
 The finding registry: a list of numbered findings, a validator that also checks a lock of published
 identities, and the number for the next finding.

 The identity digest is its own preimage (an injective hash). `int()` is modelled on an optional sign and
 decimal digits.
 */
module FindingRegistry {
  import opened Sorting
  import opened Wrappers

  datatype Finding = Finding(id: string, workload: string, metric: string, status: string, embedder: string,
                             producer: string, headline: string)

  type Lock = map<string, string>

  // ----- Numbers in ids -----

  predicate IsDigit(c: char) { '0' <= c <= '9' }

  function Digits(s: string): Option<nat> {
    if s == [] then Some(0)
    else
      var c := s[|s| - 1];
      match Digits(s[..|s| - 1])
      case Some(v) => if IsDigit(c) then Some(10 * v + (c as int - '0' as int)) else None
      case None => None
  }

  function Unsigned(s: string): Option<nat> {
    if s == [] then None else Digits(s)
  }

  function ParseInt(s: string): Option<int> {
    if s != [] && s[0] in "+-" then
      match Unsigned(s[1..])
      case Some(v) => Some(if s[0] == '-' then -(v as int) else v as int)
      case None => None
    else
      match Unsigned(s)
      case Some(v) => Some(v)
      case None => None
  }

  function Decimal(n: nat): string {
    if n < 10 then [('0' as int + n) as char] else Decimal(n / 10) + [('0' as int + n % 10) as char]
  }

  function ToString(n: int): string {
    if n < 0 then "-" + Decimal(-n) else Decimal(n)
  }

  lemma {:induction false} DecimalDigits(n: nat)
    ensures Decimal(n) != [] && IsDigit(Decimal(n)[0]) && Digits(Decimal(n)) == Some(n)
  {
    if n >= 10 {
      DecimalDigits(n / 10);
      assert Decimal(n)[..|Decimal(n)| - 1] == Decimal(n / 10);
    } else {
      assert Decimal(n)[..0] == [];
    }
  }

  lemma ParseToString(n: int)
    ensures ParseInt(ToString(n)) == Some(n)
  {
    DecimalDigits(if n < 0 then -n else n);
    assert ("-" + Decimal(if n < 0 then -n else n))[1..] == Decimal(if n < 0 then -n else n);
  }

  /** `int(self.id[1:])`; the first character is not looked at. */
  function Number(id: string): Option<int> {
    ParseInt(if id == [] then [] else id[1..])
  }

  predicate Parsed(fs: seq<Finding>) { forall f :: f in fs ==> Number(f.id).Some? }

  function Numbers(fs: seq<Finding>): (ns: seq<int>)
    requires Parsed(fs)
    ensures |ns| == |fs|
  {
    seq(|fs|, i requires 0 <= i < |fs| => assert fs[i] in fs; Number(fs[i].id).value)
  }

  // ----- The validator -----

  datatype Violation =
    | Duplicate(number: int, earlier: string, later: string)
    | Gap(number: int)
    | Removed(id: string)
    | Rebound(id: string)

  function Identity(f: Finding): string { f.id + "|" + f.workload + "|" + f.metric }

  /** The workload last seen for each number. */
  function Seen(ns: seq<int>, fs: seq<Finding>): map<int, string>
    requires |ns| == |fs|
  {
    if ns == [] then map[]
    else Seen(ns[..|ns| - 1], fs[..|fs| - 1])[ns[|ns| - 1] := fs[|fs| - 1].workload]
  }

  function Duplicates(ns: seq<int>, fs: seq<Finding>): seq<Violation>
    requires |ns| == |fs|
  {
    if ns == [] then []
    else
      var n, f, before := ns[|ns| - 1], fs[|fs| - 1], Seen(ns[..|ns| - 1], fs[..|fs| - 1]);
      var rest := Duplicates(ns[..|ns| - 1], fs[..|fs| - 1]);
      if n in before then rest + [Duplicate(n, before[n], f.workload)] else rest
  }

  function Max(ns: seq<int>): int {
    if ns == [] then 0
    else if |ns| == 1 then ns[0]
    else
      var m := Max(ns[..|ns| - 1]);
      if m < ns[|ns| - 1] then ns[|ns| - 1] else m
  }

  function Gaps(ns: seq<int>, m: int): seq<Violation> {
    if m < 1 then []
    else if m in ns then Gaps(ns, m - 1)
    else Gaps(ns, m - 1) + [Gap(m)]
  }

  /** `{f.id: f.identity() for f in fs}`: a later finding with the same id wins. */
  function MakeLock(fs: seq<Finding>): Lock {
    if fs == [] then map[] else MakeLock(fs[..|fs| - 1])[fs[|fs| - 1].id := Identity(fs[|fs| - 1])]
  }

  predicate Broken(cur: Lock, lock: Lock, id: string) {
    id in lock && (id !in cur || cur[id] != lock[id])
  }

  function Verdict(cur: Lock, lock: Lock, id: string): Violation
    requires id in lock
  {
    if id !in cur then Removed(id) else Rebound(id)
  }

  ghost predicate LockReport(fs: seq<Finding>, lock: Lock, v: seq<Violation>) {
    forall x :: x in v <==> exists id :: Broken(MakeLock(fs), lock, id) && x == Verdict(MakeLock(fs), lock, id)
  }

  /** Every published number is still there and still means the same. */
  ghost predicate Keeps(fs: seq<Finding>, lock: Lock) {
    forall id :: !Broken(MakeLock(fs), lock, id)
  }

  lemma ReportEmptyIff(fs: seq<Finding>, lock: Lock, v: seq<Violation>)
    requires LockReport(fs, lock, v)
    ensures v == [] <==> Keeps(fs, lock)
  {
    if id :| Broken(MakeLock(fs), lock, id) {
      assert Verdict(MakeLock(fs), lock, id) in v;
    }
    if v != [] {
      assert v[0] in v;
    }
  }

  /** No duplicate and no gap. */
  ghost predicate Clean(fs: seq<Finding>) {
    Parsed(fs) && Duplicates(Numbers(fs), fs) == [] && Gaps(Numbers(fs), Max(Numbers(fs))) == []
  }

  /** The lock check, in whatever order the lock is listed. */
  method CheckLock(cur: Lock, lock: Lock) returns (v: seq<Violation>)
    ensures forall x :: x in v <==> exists id :: Broken(cur, lock, id) && x == Verdict(cur, lock, id)
  {
    v := [];
    var todo := lock.Keys;
    while todo != {}
      invariant todo <= lock.Keys
      invariant forall x :: x in v <==> exists id :: id !in todo && Broken(cur, lock, id) && x == Verdict(cur, lock, id)
      decreases |todo|
    {
      var id :| id in todo;
      ghost var before := todo;
      todo := todo - {id};
      assert forall other :: other !in todo <==> other == id || other !in before;
      if id !in cur {
        v := v + [Removed(id)];
      } else if cur[id] != lock[id] {
        v := v + [Rebound(id)];
      }
    }
  }

  lemma NumbersSnoc(fs: seq<Finding>, i: nat, ns: seq<int>)
    requires i < |fs| && Parsed(fs[..i]) && ns == Numbers(fs[..i]) && Number(fs[i].id).Some?
    ensures Parsed(fs[..i + 1]) && Numbers(fs[..i + 1]) == ns + [Number(fs[i].id).value]
  {
    assert fs[..i + 1] == fs[..i] + [fs[i]];
  }

  lemma DuplicatesSnoc(ns: seq<int>, n: int, fs: seq<Finding>, i: nat)
    requires i < |fs| && |ns| == i
    ensures Seen(ns + [n], fs[..i + 1]) == Seen(ns, fs[..i])[n := fs[i].workload]
    ensures Duplicates(ns + [n], fs[..i + 1]) ==
            if n in Seen(ns, fs[..i]) then Duplicates(ns, fs[..i]) + [Duplicate(n, Seen(ns, fs[..i])[n], fs[i].workload)]
            else Duplicates(ns, fs[..i])
  {
    assert fs[..i + 1][..i] == fs[..i] && (ns + [n])[..i] == ns;
  }

  /** An id without a number stops the validation. */
  method CheckDuplicates(fs: seq<Finding>) returns (r: Result<(seq<Violation>, seq<int>), string>)
    ensures r.Failure? <==> !Parsed(fs)
    ensures r.Success? ==> r.value == (Duplicates(Numbers(fs), fs), Numbers(fs))
  {
    var v, seen, ns := [], map[], [];
    for i := 0 to |fs|
      invariant Parsed(fs[..i]) && ns == Numbers(fs[..i])
      invariant seen == Seen(ns, fs[..i]) && v == Duplicates(ns, fs[..i])
    {
      var n := Number(fs[i].id);
      if n.None? {
        assert fs[i] in fs;
        return Failure(fs[i].id);
      }
      NumbersSnoc(fs, i, ns);
      DuplicatesSnoc(ns, n.value, fs, i);
      if n.value in seen {
        v := v + [Duplicate(n.value, seen[n.value], fs[i].workload)];
      }
      seen := seen[n.value := fs[i].workload];
      ns := ns + [n.value];
    }
    assert fs[..|fs|] == fs;
    r := Success((v, ns));
  }

  method CheckGaps(ns: seq<int>) returns (v: seq<Violation>)
    ensures v == Gaps(ns, Max(ns))
  {
    v := [];
    if Max(ns) < 1 {
      return;
    }
    for i := 1 to Max(ns) + 1
      invariant v == Gaps(ns, i - 1)
    {
      if i !in ns {
        v := v + [Gap(i)];
      }
    }
  }

  /** Duplicates first, then gaps, then the lock. */
  method Validate(fs: seq<Finding>, lock: Option<Lock>) returns (r: Result<seq<Violation>, string>)
    ensures r.Failure? <==> !Parsed(fs)
    ensures r.Success? ==>
      var numbering := Duplicates(Numbers(fs), fs) + Gaps(Numbers(fs), Max(Numbers(fs)));
      && numbering <= r.value
      && (lock.None? ==> r.value == numbering)
      && (lock.Some? ==> LockReport(fs, lock.value, r.value[|numbering|..]))
    ensures r == Success([]) <==> Clean(fs) && (lock.Some? ==> Keeps(fs, lock.value))
  {
    var found := CheckDuplicates(fs);
    if found.Failure? {
      return Failure(found.error);
    }
    var v := found.value.0;
    var gaps := CheckGaps(found.value.1);
    v := v + gaps;
    if lock.Some? {
      var w := CheckLock(MakeLock(fs), lock.value);
      ReportEmptyIff(fs, lock.value, w);
      assert (v + w)[|v|..] == w;
      v := v + w;
    }
    r := Success(v);
  }

  // ----- What a clean numbering is -----

  lemma {:induction false} SeenKeys(ns: seq<int>, fs: seq<Finding>)
    requires |ns| == |fs|
    ensures forall n :: n in Seen(ns, fs) <==> n in ns
  {
    if ns != [] {
      SeenKeys(ns[..|ns| - 1], fs[..|fs| - 1]);
      assert ns == ns[..|ns| - 1] + [ns[|ns| - 1]];
    }
  }

  lemma {:induction false} DuplicatesIff(ns: seq<int>, fs: seq<Finding>)
    requires |ns| == |fs|
    ensures Duplicates(ns, fs) == [] <==> NoRepeats(ns)
  {
    if ns != [] {
      var k := |ns| - 1;
      DuplicatesIff(ns[..k], fs[..k]);
      SeenKeys(ns[..k], fs[..k]);
      if ns[k] in ns[..k] {
        var i :| 0 <= i < k && ns[i] == ns[k];
      }
      assert NoRepeats(ns) <==> NoRepeats(ns[..k]) && ns[k] !in ns[..k];
    }
  }

  lemma {:induction false} GapsIff(ns: seq<int>, m: int)
    ensures Gaps(ns, m) == [] <==> forall i :: 1 <= i <= m ==> i in ns
    decreases m
  {
    if m >= 1 {
      GapsIff(ns, m - 1);
    }
  }

  lemma {:induction false} MaxBounds(ns: seq<int>)
    ensures forall n :: n in ns ==> n <= Max(ns)
    ensures ns != [] ==> Max(ns) in ns
  {
    if |ns| > 1 {
      MaxBounds(ns[..|ns| - 1]);
      assert ns == ns[..|ns| - 1] + [ns[|ns| - 1]];
    }
  }

  ghost predicate Tidy(ns: seq<int>) {
    NoRepeats(ns) && forall i :: 1 <= i <= Max(ns) ==> i in ns
  }

  lemma CleanIff(fs: seq<Finding>)
    requires Parsed(fs)
    ensures Clean(fs) <==> Tidy(Numbers(fs))
  {
    DuplicatesIff(Numbers(fs), fs);
    GapsIff(Numbers(fs), Max(Numbers(fs)));
  }

  function Positive(ns: seq<int>): seq<int> {
    if ns == [] then []
    else if ns[|ns| - 1] >= 1 then Positive(ns[..|ns| - 1]) + [ns[|ns| - 1]]
    else Positive(ns[..|ns| - 1])
  }

  function UpTo(m: nat): seq<int> { if m == 0 then [] else UpTo(m - 1) + [m] }

  lemma {:induction false} PositiveCount(ns: seq<int>, x: int)
    ensures multiset(Positive(ns))[x] == if x >= 1 then multiset(ns)[x] else 0
  {
    if ns != [] {
      PositiveCount(ns[..|ns| - 1], x);
      assert ns == ns[..|ns| - 1] + [ns[|ns| - 1]];
    }
  }

  lemma {:induction false} UpToCount(m: nat, x: int)
    ensures |UpTo(m)| == m && multiset(UpTo(m))[x] == if 1 <= x <= m then 1 else 0
  {
    if m > 0 {
      UpToCount(m - 1, x);
    }
  }

  /** The numbers are distinct and the positive ones are exactly 1, 2, and so on without a gap. */
  lemma CleanNumbering(fs: seq<Finding>)
    requires Parsed(fs)
    ensures Clean(fs) <==>
      var ns := Numbers(fs); NoRepeats(ns) && multiset(Positive(ns)) == multiset(UpTo(|Positive(ns)|))
  {
    var ns := Numbers(fs);
    CleanIff(fs);
    if Tidy(ns) {
      TidyIsUpTo(ns, if Max(ns) < 0 then 0 else Max(ns));
    }
    if NoRepeats(ns) && multiset(Positive(ns)) == multiset(UpTo(|Positive(ns)|)) {
      UpToIsTidy(ns, |Positive(ns)|);
    }
  }

  lemma SameSize(a: seq<int>, b: seq<int>)
    requires multiset(a) == multiset(b)
    ensures |a| == |b|
  {
    assert |a| == |multiset(a)| && |b| == |multiset(b)|;
  }

  lemma TidyIsUpTo(ns: seq<int>, m: nat)
    requires Tidy(ns) && m == if Max(ns) < 0 then 0 else Max(ns)
    ensures multiset(Positive(ns)) == multiset(UpTo(m)) && |Positive(ns)| == m
  {
    MaxBounds(ns);
    RepeatsCount(ns);
    forall x
      ensures multiset(Positive(ns))[x] == multiset(UpTo(m))[x]
    {
      PositiveCount(ns, x);
      UpToCount(m, x);
      assert x in ns <==> multiset(ns)[x] > 0;
    }
    UpToCount(m, 0);
    SameSize(Positive(ns), UpTo(m));
  }

  lemma UpToIsTidy(ns: seq<int>, k: nat)
    requires NoRepeats(ns) && multiset(Positive(ns)) == multiset(UpTo(k))
    ensures Tidy(ns)
  {
    MaxBounds(ns);
    forall x
      ensures x >= 1 ==> (x in ns <==> x <= k)
    {
      PositiveCount(ns, x);
      UpToCount(k, x);
      assert x in ns <==> multiset(ns)[x] > 0;
    }
  }

  lemma {:induction false} AllPositive(ns: seq<int>)
    requires forall i :: 0 <= i < |ns| ==> ns[i] >= 1
    ensures Positive(ns) == ns
  {
    if ns != [] {
      assert ns == ns[..|ns| - 1] + [ns[|ns| - 1]];
      AllPositive(ns[..|ns| - 1]);
    }
  }

  lemma NoRepeatsUpTo(ns: seq<int>, k: nat)
    requires multiset(ns) == multiset(UpTo(k))
    ensures NoRepeats(ns)
  {
    forall x ensures multiset(ns)[x] <= 1 { UpToCount(k, x); }
    RepeatsCount(ns);
  }

  /** With positive numbers only, a clean registry is numbered 1 to its length, in some order. */
  lemma CleanPermutation(fs: seq<Finding>)
    requires Parsed(fs) && forall i :: 0 <= i < |fs| ==> Numbers(fs)[i] >= 1
    ensures Clean(fs) <==> multiset(Numbers(fs)) == multiset(UpTo(|fs|))
  {
    var ns := Numbers(fs);
    CleanNumbering(fs);
    AllPositive(ns);
    if multiset(ns) == multiset(UpTo(|fs|)) {
      NoRepeatsUpTo(ns, |fs|);
    }
  }

  /** The validator accepts a number that is not positive: F0 alone is clean. */
  lemma ZeroIsAccepted(f: Finding)
    requires f.id == "F0"
    ensures Clean([f]) && Numbers([f]) == [0]
  {
    assert "F0"[1..] == "0" && "0"[..0] == [];
    assert Digits("0") == Some(0);
    assert Numbers([f]) == [0];
    CleanIff([f]);
  }

  // ----- Growing the registry -----

  function NextNumber(fs: seq<Finding>): int
    requires Parsed(fs)
  {
    Max(Numbers(fs)) + 1
  }

  function NextId(fs: seq<Finding>): string
    requires Parsed(fs)
  {
    "F" + ToString(NextNumber(fs))
  }

  lemma NextIdNumber(fs: seq<Finding>)
    requires Parsed(fs)
    ensures Number(NextId(fs)) == Some(NextNumber(fs))
  {
    ParseToString(NextNumber(fs));
    assert NextId(fs)[1..] == ToString(NextNumber(fs));
  }

  lemma TidySnoc(ns: seq<int>, grown: seq<int>)
    requires Tidy(ns) && grown == ns + [Max(ns) + 1]
    ensures Tidy(grown) && Max(ns) + 1 !in ns
  {
    MaxBounds(ns);
    assert forall i :: 0 <= i < |ns| ==> ns[i] in ns;
    forall i
      ensures 1 <= i <= Max(grown) ==> i in grown
    {
      if 1 <= i <= Max(ns) {
        assert i in ns;
      } else if i == Max(grown) {
        assert grown[|ns|] == i;
      }
    }
  }

  /** The next id is free, and using it keeps the registry clean. */
  lemma AppendClean(fs: seq<Finding>, f: Finding)
    requires Clean(fs) && f.id == NextId(fs)
    ensures Clean(fs + [f]) && f.id !in MakeLock(fs)
  {
    var ns := Numbers(fs);
    NextIdNumber(fs);
    CleanIff(fs);
    TidySnoc(ns, ns + [Max(ns) + 1]);
    assert Numbers(fs + [f]) == ns + [Max(ns) + 1];
    CleanIff(fs + [f]);
    LockIds(fs, f.id);
    assert forall i :: 0 <= i < |fs| ==> ns[i] in ns && ns[i] == Number(fs[i].id).value;
  }

  lemma {:induction false} LockIds(fs: seq<Finding>, id: string)
    ensures id in MakeLock(fs) <==> exists i :: 0 <= i < |fs| && fs[i].id == id
  {
    if fs != [] {
      LockIds(fs[..|fs| - 1], id);
    }
  }

  datatype Edit =
    | Append(workload: string, metric: string, status: string, embedder: string, producer: string, headline: string)
    | Revise(index: nat, newStatus: string, newEmbedder: string, newProducer: string, newHeadline: string)

  /** Publishing under the next id, or re-measuring or retiring what is there. */
  function Apply(fs: seq<Finding>, e: Edit): seq<Finding>
    requires Parsed(fs)
  {
    match e
    case Append(w, m, s, b, p, h) => fs + [Finding(NextId(fs), w, m, s, b, p, h)]
    case Revise(i, s, b, p, h) =>
      if i < |fs| then fs[i := fs[i].(status := s, embedder := b, producer := p, headline := h)] else fs
  }

  lemma {:induction false} ReviseLock(fs: seq<Finding>, gs: seq<Finding>)
    requires |fs| == |gs| && forall i :: 0 <= i < |fs| ==>
      gs[i].id == fs[i].id && gs[i].workload == fs[i].workload && gs[i].metric == fs[i].metric
    ensures MakeLock(gs) == MakeLock(fs)
  {
    if fs != [] {
      ReviseLock(fs[..|fs| - 1], gs[..|gs| - 1]);
    }
  }

  lemma SameNumbers(fs: seq<Finding>, gs: seq<Finding>)
    requires |fs| == |gs| && (forall i :: 0 <= i < |fs| ==> gs[i].id == fs[i].id) && Clean(fs)
    ensures Clean(gs)
  {
    forall g | g in gs ensures Number(g.id).Some? {
      var i :| 0 <= i < |gs| && gs[i] == g;
      assert fs[i] in fs;
    }
    assert Numbers(gs) == Numbers(fs);
    CleanIff(fs);
    CleanIff(gs);
  }

  lemma ApplyKeeps(fs: seq<Finding>, e: Edit, lock: Lock)
    requires Clean(fs) && Keeps(fs, lock)
    ensures Clean(Apply(fs, e)) && Keeps(Apply(fs, e), lock)
  {
    var gs := Apply(fs, e);
    if e.Append? {
      AppendClean(fs, gs[|fs|]);
      assert gs[..|fs|] == fs;
      assert MakeLock(gs) == MakeLock(fs)[gs[|fs|].id := Identity(gs[|fs|])];
      forall id ensures !Broken(MakeLock(gs), lock, id) {
        assert !Broken(MakeLock(fs), lock, id);
      }
    } else {
      SameNumbers(fs, gs);
      ReviseLock(fs, gs);
    }
  }

  function Run(fs: seq<Finding>, edits: seq<Edit>): (gs: seq<Finding>)
    requires Parsed(fs)
    decreases |edits|
  {
    if edits == [] then fs
    else
      var next := Apply(fs, edits[0]);
      if Parsed(next) then Run(next, edits[1..]) else next
  }

  /** Through any history of edits the registry stays clean and keeps every lock it ever met. */
  lemma {:induction false} HistoryKeeps(fs: seq<Finding>, edits: seq<Edit>, lock: Lock)
    requires Clean(fs) && Keeps(fs, lock)
    ensures Clean(Run(fs, edits)) && Keeps(Run(fs, edits), lock)
    decreases |edits|
  {
    if edits != [] {
      ApplyKeeps(fs, edits[0], lock);
      HistoryKeeps(Apply(fs, edits[0]), edits[1..], lock);
    }
  }

  /**
   Checking each release against the lock of the one before is enough: the last release keeps the lock of the
   first, and every lock the first one kept.
   */
  lemma {:induction false} ReleasesCompose(releases: seq<seq<Finding>>, lock: Lock)
    requires releases != [] && Keeps(releases[0], lock)
    requires forall i :: 0 <= i < |releases| - 1 ==> Keeps(releases[i + 1], MakeLock(releases[i]))
    ensures Keeps(releases[|releases| - 1], lock)
    decreases |releases|
  {
    if |releases| > 1 {
      forall id
        ensures !Broken(MakeLock(releases[1]), lock, id)
      {
        assert !Broken(MakeLock(releases[0]), lock, id);
        assert !Broken(MakeLock(releases[1]), MakeLock(releases[0]), id);
      }
      ReleasesCompose(releases[1..], lock);
    }
  }

  // ----- What the identity binds -----

  ghost predicate Rebinds(f: Finding, g: Finding, id: string, w: string, w': string) {
    f.id == g.id == id && f.workload == w && g.workload == w' && Identity(f) == Identity(g)
  }

  /** A number can be moved between two workloads unnoticed exactly when one name continues the other past a bar. */
  lemma RebindUndetectedIff(id: string, w: string, w': string)
    requires w != w'
    ensures (exists f, g :: Rebinds(f, g, id, w, w')) <==> w + "|" <= w' || w' + "|" <= w
  {
    if w + "|" <= w' {
      RebindWitness(id, w, w');
    }
    if w' + "|" <= w {
      RebindWitness(id, w', w);
    }
    forall f, g | Rebinds(f, g, id, w, w')
      ensures w + "|" <= w' || w' + "|" <= w
    {
      SameIdentity(f, g);
    }
  }

  lemma RebindWitness(id: string, w: string, w': string)
    requires w + "|" <= w'
    ensures exists f, g :: Rebinds(f, g, id, w, w')
    ensures exists f, g :: Rebinds(f, g, id, w', w)
  {
    var f := Finding(id, w, w'[|w| + 1..] + "|", "", "", "", "");
    var g := Finding(id, w', "", "", "", "", "");
    assert w' == w + "|" + w'[|w| + 1..];
    assert Identity(f) == Identity(g);
    assert Rebinds(f, g, id, w, w') && Rebinds(g, f, id, w', w);
  }

  lemma SameIdentity(f: Finding, g: Finding)
    requires f.id == g.id && Identity(f) == Identity(g)
    ensures f.workload == g.workload ==> f.metric == g.metric
    ensures f.workload == g.workload || f.workload + "|" <= g.workload || g.workload + "|" <= f.workload
  {
    var k := |f.id| + 1;
    assert Identity(f)[k..] == f.workload + "|" + f.metric;
    assert Identity(g)[k..] == g.workload + "|" + g.metric;
    var j := f.workload + "|" + f.metric;
    assert f.workload + "|" == j[..|f.workload| + 1] && g.workload + "|" == j[..|g.workload| + 1];
    assert f.metric == j[|f.workload| + 1..] && g.metric == j[|g.workload| + 1..];
    if |f.workload| < |g.workload| {
      assert f.workload + "|" == g.workload[..|f.workload| + 1];
    } else if |g.workload| < |f.workload| {
      assert g.workload + "|" == f.workload[..|g.workload| + 1];
    } else {
      assert f.workload == j[..|f.workload|] == g.workload;
    }
  }

  // ----- Every report, exactly -----

  lemma DigitIff(c: char)
    ensures IsDigit(c) <==> c in "0123456789"
  {
    assert IsDigit(c) ==> "0123456789"[c as int - '0' as int] == c;
  }

  /** A text of figures only is a number, and nothing else is. */
  lemma {:induction false} UnsignedExact(s: string)
    ensures Digits(s).Some? <==> forall i :: 0 <= i < |s| ==> s[i] in "0123456789"
    ensures Unsigned(s).Some? <==> s != [] && Digits(s).Some?
  {
    if s != [] {
      UnsignedExact(s[..|s| - 1]);
      DigitIff(s[|s| - 1]);
    }
  }

  /** Each figure counts ten times less than the one before it. */
  lemma NextFigure(s: string, i: nat)
    requires i < 10 && Digits(s).Some?
    ensures Digits(s + ["0123456789"[i]]) == Some(10 * Digits(s).value + i) && Digits([]) == Some(0)
  {
    assert (s + ["0123456789"[i]])[..|s|] == s;
  }

  /** A sign in front is allowed, and minus negates. */
  lemma ParseExact(s: string)
    ensures ParseInt("+" + s) == (if Unsigned(s) == None then None else Some(Unsigned(s).value as int))
    ensures ParseInt("-" + s) == (if Unsigned(s) == None then None else Some(-(Unsigned(s).value as int)))
    ensures Unsigned(s) != None ==> ParseInt(s) == Some(Unsigned(s).value as int)
    ensures ParseInt(s) != None ==> Unsigned(s) != None || (s != [] && (s[0] == '+' || s[0] == '-') && Unsigned(s[1..]) != None)
  {
    assert ("+" + s)[1..] == s && ("-" + s)[1..] == s;
    UnsignedExact(s);
  }

  /** Nothing but minus and figures is printed. */
  lemma {:induction false} PrintedExact(n: int)
    ensures ToString(n) != [] && (ToString(n)[0] == '-' <==> n < 0)
    ensures forall i :: 1 <= i < |ToString(n)| ==> ToString(n)[i] in "0123456789"
  {
    DecimalDigits(if n < 0 then -n else n);
    UnsignedExact(Decimal(if n < 0 then -n else n));
  }

  /** Before everything the next number is one. */
  lemma FirstNumber()
    ensures NextNumber([]) == 1 && NextId([]) == "F1"
  {
  }

  /** Finding i is the last before the end that has this number. */
  ghost predicate LastWith(ns: seq<int>, n: int, i: nat) {
    i < |ns| && ns[i] == n && forall j :: i < j < |ns| ==> ns[j] != n
  }

  lemma {:induction false} SeenIsLast(ns: seq<int>, fs: seq<Finding>, n: int, i: nat)
    requires |ns| == |fs| && LastWith(ns, n, i)
    ensures n in Seen(ns, fs) && Seen(ns, fs)[n] == fs[i].workload
  {
    if i < |ns| - 1 {
      SeenIsLast(ns[..|ns| - 1], fs[..|fs| - 1], n, i);
    }
  }

  /** A finding whose number was taken is reported with the workload that had it last; each such finding once, in order. */
  lemma DuplicatesExact(ns: seq<int>, fs: seq<Finding>, n: int, f: Finding)
    requires |ns| == |fs|
    ensures Duplicates([], []) == []
    ensures n !in ns ==> Duplicates(ns + [n], fs + [f]) == Duplicates(ns, fs)
    ensures forall i: nat :: LastWith(ns, n, i) ==>
      Duplicates(ns + [n], fs + [f]) == Duplicates(ns, fs) + [Duplicate(n, fs[i].workload, f.workload)]
  {
    assert (ns + [n])[..|ns|] == ns && (fs + [f])[..|fs|] == fs;
    SeenKeys(ns, fs);
    forall i: nat | LastWith(ns, n, i)
      ensures n in ns && Seen(ns, fs)[n] == fs[i].workload
    {
      SeenIsLast(ns, fs, n, i);
    }
  }

  /** The gaps reported are the missing numbers from one up to the greatest, ascending. */
  lemma {:induction false} GapsExact(ns: seq<int>, m: int)
    ensures forall x :: x in Gaps(ns, m) <==> x.Gap? && 1 <= x.number <= m && x.number !in ns
    ensures forall i, j :: 0 <= i < j < |Gaps(ns, m)| ==> Gaps(ns, m)[i].Gap? && Gaps(ns, m)[j].Gap?
                                                          && Gaps(ns, m)[i].number < Gaps(ns, m)[j].number
    decreases m
  {
    if m >= 1 {
      GapsExact(ns, m - 1);
      var rest := Gaps(ns, m - 1);
      forall i | 0 <= i < |rest|
        ensures rest[i].Gap? && rest[i].number < m
      {
        assert rest[i] in rest;
      }
    }
  }

  /** The lock of a registry holds, under each id, what its last finding with that id is about. */
  lemma {:induction false} LockExact(fs: seq<Finding>, id: string)
    ensures id in MakeLock(fs) <==> exists i :: 0 <= i < |fs| && fs[i].id == id
    ensures forall i :: 0 <= i < |fs| && fs[i].id == id && (forall j :: i < j < |fs| ==> fs[j].id != id) ==>
      id in MakeLock(fs) && MakeLock(fs)[id] == id + "|" + fs[i].workload + "|" + fs[i].metric
  {
    LockIds(fs, id);
    if fs != [] {
      var last := |fs| - 1;
      LockExact(fs[..last], id);
      assert fs == fs[..last] + [fs[last]];
      forall i | 0 <= i < last && fs[i].id == id && forall j :: i < j < |fs| ==> fs[j].id != id
        ensures fs[last].id != id && fs[..last][i] == fs[i] && forall j :: i < j < last ==> fs[..last][j].id != id
      {
      }
    }
  }

  /** Against a lock: removed are the locked ids that are gone, rebound those whose entry reads differently now. */
  lemma LockReportExact(fs: seq<Finding>, lock: Lock, v: seq<Violation>, id: string)
    requires LockReport(fs, lock, v)
    ensures Removed(id) in v <==> id in lock && id !in MakeLock(fs)
    ensures Rebound(id) in v <==> id in lock && id in MakeLock(fs) && MakeLock(fs)[id] != lock[id]
    ensures forall x :: x in v ==> x.Removed? || x.Rebound?
  {
    forall other | Broken(MakeLock(fs), lock, other)
      ensures Verdict(MakeLock(fs), lock, other) in v
    {
    }
    assert Broken(MakeLock(fs), lock, id) ==> Verdict(MakeLock(fs), lock, id) in v;
  }

  /** What an edit does: a new finding under the next id at the end, or other measurements for one finding. */
  lemma ApplyExact(fs: seq<Finding>, e: Edit)
    requires Parsed(fs)
    ensures e.Append? ==> Apply(fs, e) == fs + [Finding("F" + ToString(Max(Numbers(fs)) + 1), e.workload, e.metric, e.status,
                                                        e.embedder, e.producer, e.headline)]
    ensures e.Revise? ==> |Apply(fs, e)| == |fs|
    ensures e.Revise? ==> forall i :: 0 <= i < |fs| && i != e.index ==> Apply(fs, e)[i] == fs[i]
    ensures e.Revise? && e.index < |fs| ==>
      Apply(fs, e)[e.index] == Finding(fs[e.index].id, fs[e.index].workload, fs[e.index].metric, e.newStatus, e.newEmbedder,
                                       e.newProducer, e.newHeadline)
  {
  }

  /** A history is applied edit by edit, and from a clean registry none of them is passed over. */
  lemma RunExact(fs: seq<Finding>, e: Edit, edits: seq<Edit>)
    requires Clean(fs)
    ensures Run(fs, []) == fs
    ensures Clean(Apply(fs, e)) && Run(fs, [e] + edits) == Run(Apply(fs, e), edits)
  {
    ApplyKeeps(fs, e, map[]);
    assert ([e] + edits)[1..] == edits;
  }
}
