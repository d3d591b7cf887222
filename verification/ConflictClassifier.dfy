/**
 The W7 conflict classifier: one class per conflict query, and a verdict over the replays of a backend.

 A replay is a dict, so it lists each key once and in an order; the order decides ties.
 */
module ConflictClassifier {
  import opened Wrappers

  datatype Class = LastWriteWins | FirstWriteWins | Merge | ConflictFlag | SilentDataLoss | NonDeterministic

  type Fact = string

  type Key = string

  function ClassifyQuery(earlier: Fact, later: Fact, returned: set<Fact>, signalled: bool): Result<Class, string> {
    if earlier == later then Failure("contested pair must be two distinct facts")
    else if signalled then Success(ConflictFlag)
    else
      var present := returned * {earlier, later};
      if present == {earlier, later} then Success(Merge)
      else if present == {later} then Success(LastWriteWins)
      else if present == {earlier} then Success(FirstWriteWins)
      else Success(SilentDataLoss)
  }

  /** The class in terms of who was returned. */
  lemma QueryClass(earlier: Fact, later: Fact, returned: set<Fact>, signalled: bool)
    ensures ClassifyQuery(earlier, later, returned, signalled).Failure? <==> earlier == later
    ensures earlier != later ==>
      ClassifyQuery(earlier, later, returned, signalled).value ==
        if signalled then ConflictFlag
        else if earlier in returned then (if later in returned then Merge else FirstWriteWins)
        else (if later in returned then LastWriteWins else SilentDataLoss)
  {
    var present := returned * {earlier, later};
    assert earlier in returned <==> earlier in present;
    assert later in returned <==> later in present;
  }

  function Mirror(c: Class): Class {
    match c
    case LastWriteWins => FirstWriteWins
    case FirstWriteWins => LastWriteWins
    case _ => c
  }

  /** Naming the pair the other way round mirrors the class and changes nothing else. */
  lemma QueryMirrors(earlier: Fact, later: Fact, returned: set<Fact>, signalled: bool)
    requires earlier != later
    ensures ClassifyQuery(later, earlier, returned, signalled).value == Mirror(ClassifyQuery(earlier, later, returned, signalled).value)
  {
    QueryClass(earlier, later, returned, signalled);
    QueryClass(later, earlier, returned, signalled);
  }

  // ----- Replays -----

  datatype Answer = Answer(key: Key, outcome: Class)

  type Replay = seq<Answer>

  function Answers(replays: seq<Replay>): seq<Answer> {
    if replays == [] then [] else Answers(replays[..|replays| - 1]) + replays[|replays| - 1]
  }

  /** A dict of sets in insertion order. */
  datatype Tally = Tally(order: seq<Key>, outcomes: map<Key, set<Class>>)

  function Enter(t: Tally, a: Answer): Tally {
    if a.key in t.outcomes then t.(outcomes := t.outcomes[a.key := t.outcomes[a.key] + {a.outcome}])
    else Tally(t.order + [a.key], t.outcomes[a.key := {a.outcome}])
  }

  function Collect(answers: seq<Answer>): Tally {
    if answers == [] then Tally([], map[])
    else Enter(Collect(answers[..|answers| - 1]), answers[|answers| - 1])
  }

  ghost predicate Ordered(t: Tally) {
    && (forall k :: k in t.order <==> k in t.outcomes)
    && (forall i, j :: 0 <= i < j < |t.order| ==> t.order[i] != t.order[j])
  }

  lemma {:induction false} CollectOrdered(answers: seq<Answer>)
    ensures Ordered(Collect(answers))
  {
    if answers != [] {
      CollectOrdered(answers[..|answers| - 1]);
    }
  }

  /** A key's set is exactly the outcomes it was ever answered with. */
  lemma {:induction false} CollectExact(answers: seq<Answer>, k: Key, c: Class)
    ensures k in Collect(answers).outcomes <==> exists a :: a in answers && a.key == k
    ensures k in Collect(answers).outcomes ==> (c in Collect(answers).outcomes[k] <==> Answer(k, c) in answers)
  {
    if answers != [] {
      var front, last := answers[..|answers| - 1], answers[|answers| - 1];
      assert answers == front + [last];
      CollectExact(front, k, c);
      if last.key == k && k !in Collect(front).outcomes {
        assert Answer(k, c) !in front;
      }
    }
  }

  predicate Stable(outs: set<Class>, c: Class) { outs == {c} }

  /** The keys answered with c and nothing else. */
  function KeysOf(outcomes: map<Key, set<Class>>, c: Class): set<Key> {
    set k | k in outcomes && Stable(outcomes[k], c)
  }

  function Unstable(outcomes: map<Key, set<Class>>): set<Key> {
    set k | k in outcomes && |outcomes[k]| > 1
  }

  function Count(outcomes: map<Key, set<Class>>, c: Class): nat { |KeysOf(outcomes, c)| }

  /** A class no other class outnumbers. */
  ghost predicate Maximal(outcomes: map<Key, set<Class>>, c: Class) {
    Count(outcomes, c) > 0 && forall d :: Count(outcomes, d) <= Count(outcomes, c)
  }

  /** The j-th key answered c and nothing else. */
  predicate Is(t: Tally, j: nat, c: Class) {
    j < |t.order| && t.order[j] in t.outcomes && Stable(t.outcomes[t.order[j]], c)
  }

  /** c is maximal, and the first key of any maximal class is one of c. */
  ghost predicate Leads(t: Tally, c: Class) {
    Maximal(t.outcomes, c)
    && exists i: nat :: Is(t, i, c) && forall j: nat, d :: j < i && Is(t, j, d) ==> !Maximal(t.outcomes, d)
  }

  datatype Summary = Summary(distribution: map<Class, nat>, queries: nat, unstable: nat)

  ghost predicate Summarises(s: Summary, outcomes: map<Key, set<Class>>) {
    && s.queries == |outcomes| && s.unstable == |Unstable(outcomes)|
    && (forall c :: c in s.distribution <==> Count(outcomes, c) > 0)
    && (forall c :: c in s.distribution ==> s.distribution[c] == Count(outcomes, c))
  }

  ghost predicate Decides(t: Tally, verdict: Class) {
    if Unstable(t.outcomes) != {} || (forall c :: Count(t.outcomes, c) == 0) then verdict == NonDeterministic
    else Leads(t, verdict)
  }

  // ----- The aggregation -----

  method CollectReplays(replays: seq<Replay>) returns (t: Tally)
    ensures t == Collect(Answers(replays)) && Ordered(t)
  {
    t := Tally([], map[]);
    for i := 0 to |replays|
      invariant t == Collect(Answers(replays[..i]))
    {
      ghost var before := Answers(replays[..i]);
      assert before + replays[i][..0] == before;
      for j := 0 to |replays[i]|
        invariant t == Collect(before + replays[i][..j])
      {
        t := Enter(t, replays[i][j]);
        CollectSnoc(before, replays[i], j);
      }
      assert replays[i][..|replays[i]|] == replays[i];
      assert replays[..i + 1][..i] == replays[..i];
    }
    assert replays[..|replays|] == replays;
    CollectOrdered(Answers(replays));
  }

  lemma CollectSnoc(before: seq<Answer>, replay: Replay, j: nat)
    requires j < |replay|
    ensures Collect(before + replay[..j + 1]) == Enter(Collect(before + replay[..j]), replay[j])
  {
    assert (before + replay[..j + 1])[..|before| + j] == before + replay[..j];
    assert (before + replay[..j + 1])[|before| + j] == replay[j];
  }

  function CountUpTo(t: Tally, i: nat, c: Class): nat {
    if i == 0 then 0 else if Is(t, i - 1, c) then CountUpTo(t, i - 1, c) + 1 else CountUpTo(t, i - 1, c)
  }

  function KeysUpTo(t: Tally, i: nat, c: Class): set<Key> {
    if i == 0 then {} else if Is(t, i - 1, c) then KeysUpTo(t, i - 1, c) + {t.order[i - 1]} else KeysUpTo(t, i - 1, c)
  }

  lemma {:induction false} KeysMember(t: Tally, i: nat, c: Class, k: Key)
    ensures k in KeysUpTo(t, i, c) <==> exists j: nat :: j < i && Is(t, j, c) && t.order[j] == k
  {
    if i > 0 {
      KeysMember(t, i - 1, c, k);
      assert Is(t, i - 1, c) && t.order[i - 1] == k ==> k in KeysUpTo(t, i, c);
    }
  }

  lemma {:induction false} CountKeys(t: Tally, i: nat, c: Class)
    requires Ordered(t) && i <= |t.order|
    ensures CountUpTo(t, i, c) == |KeysUpTo(t, i, c)|
  {
    if i > 0 {
      CountKeys(t, i - 1, c);
      KeysMember(t, i - 1, c, t.order[i - 1]);
    }
  }

  lemma CountAll(t: Tally, c: Class)
    requires Ordered(t)
    ensures CountUpTo(t, |t.order|, c) == Count(t.outcomes, c)
  {
    CountKeys(t, |t.order|, c);
    forall k
      ensures k in KeysUpTo(t, |t.order|, c) <==> k in KeysOf(t.outcomes, c)
    {
      KeysMember(t, |t.order|, c, k);
      if k in KeysOf(t.outcomes, c) {
        assert k in t.order;
        var j :| 0 <= j < |t.order| && t.order[j] == k;
        assert Is(t, j, c);
      }
    }
    assert KeysUpTo(t, |t.order|, c) == KeysOf(t.outcomes, c);
  }

  function At(counts: map<Class, nat>, c: Class): nat { if c in counts then counts[c] else 0 }

  ghost predicate Counted(t: Tally, i: nat, counts: map<Class, nat>) {
    && (forall c :: At(counts, c) == CountUpTo(t, i, c))
    && (forall c :: c in counts ==> counts[c] > 0)
  }

  lemma CountedStep(t: Tally, i: nat, counts: map<Class, nat>, c: Class, counts': map<Class, nat>)
    requires Counted(t, i, counts) && Is(t, i, c) && counts' == counts[c := At(counts, c) + 1]
    ensures Counted(t, i + 1, counts')
  {
    forall d
      ensures At(counts', d) == CountUpTo(t, i + 1, d)
    {
      assert Is(t, i, d) ==> d in t.outcomes[t.order[i]] && d == c;
    }
  }

  lemma OneElement(outs: set<Class>, c: Class)
    requires |outs| == 1 && c in outs
    ensures outs == {c}
  {
    assert |outs - {c}| == 0;
  }

  ghost function SingleAt(t: Tally, j: nat): Option<Class> {
    if c :| Is(t, j, c) then Some(c) else None
  }

  /** The classes of the first i keys in the order they came up. */
  ghost function ClassOrder(t: Tally, i: nat): seq<Class> {
    if i == 0 then []
    else
      var rest, single := ClassOrder(t, i - 1), SingleAt(t, i - 1);
      if single.None? || single.value in rest then rest else rest + [single.value]
  }

  lemma SingleIs(t: Tally, j: nat, c: Class)
    requires Is(t, j, c)
    ensures SingleAt(t, j) == Some(c)
  {
    assert SingleAt(t, j).value in t.outcomes[t.order[j]];
  }

  /** A class is listed when its first key comes up, right after the classes listed before that key. */
  lemma {:induction false} ListedAt(t: Tally, n: nat, p: nat) returns (i: nat)
    requires p < |ClassOrder(t, n)|
    ensures i < n && Is(t, i, ClassOrder(t, n)[p]) && ClassOrder(t, i) == ClassOrder(t, n)[..p]
  {
    if p < |ClassOrder(t, n - 1)| {
      i := ListedAt(t, n - 1, p);
    } else {
      i := n - 1;
    }
  }

  lemma {:induction false} ListedBefore(t: Tally, n: nat, j: nat, c: Class)
    requires j < n && Is(t, j, c)
    ensures c in ClassOrder(t, n)
  {
    if j == n - 1 {
      SingleIs(t, j, c);
    } else {
      ListedBefore(t, n - 1, j, c);
    }
  }

  /** The counter loop. */
  method CountClasses(t: Tally) returns (counts: map<Class, nat>, classes: seq<Class>)
    requires Ordered(t)
    ensures Counted(t, |t.order|, counts) && classes == ClassOrder(t, |t.order|)
    ensures forall c :: c in counts <==> c in classes
  {
    counts, classes := map[], [];
    for i := 0 to |t.order|
      invariant Counted(t, i, counts) && classes == ClassOrder(t, i)
      invariant forall c :: c in counts <==> c in classes
    {
      assert t.order[i] in t.order;
      var outs := t.outcomes[t.order[i]];
      if |outs| == 1 {
        var c :| c in outs;
        OneElement(outs, c);
        SingleIs(t, i, c);
        CountedStep(t, i, counts, c, counts[c := At(counts, c) + 1]);
        if c !in counts {
          classes := classes + [c];
        }
        counts := counts[c := At(counts, c) + 1];
      } else {
        assert forall c :: !Is(t, i, c);
      }
    }
  }

  /** `most_common(1)`: the first of the classes with the highest count. */
  method MostCommon(counts: map<Class, nat>, classes: seq<Class>) returns (p: nat)
    requires classes != [] && forall c :: c in classes ==> c in counts
    ensures p < |classes| && forall q :: 0 <= q < |classes| ==> At(counts, classes[q]) <= At(counts, classes[p])
    ensures forall q :: 0 <= q < p ==> At(counts, classes[q]) < At(counts, classes[p])
  {
    p := 0;
    for i := 1 to |classes|
      invariant p < i && forall q :: 0 <= q < i ==> At(counts, classes[q]) <= At(counts, classes[p])
      invariant forall q :: 0 <= q < p ==> At(counts, classes[q]) < At(counts, classes[p])
    {
      if counts[classes[i]] > counts[classes[p]] {
        p := i;
      }
    }
  }

  lemma MostCommonMaximal(t: Tally, counts: map<Class, nat>, classes: seq<Class>, p: nat)
    requires Ordered(t) && Counted(t, |t.order|, counts) && p < |classes| && forall c :: c in counts <==> c in classes
    requires forall q :: 0 <= q < |classes| ==> At(counts, classes[q]) <= At(counts, classes[p])
    ensures Maximal(t.outcomes, classes[p])
  {
    assert classes[p] in classes;
    CountAll(t, classes[p]);
    forall d
      ensures Count(t.outcomes, d) <= Count(t.outcomes, classes[p])
    {
      CountAll(t, d);
      if d in classes {
        var q :| 0 <= q < |classes| && classes[q] == d;
      }
    }
  }

  lemma MostCommonLeads(t: Tally, counts: map<Class, nat>, classes: seq<Class>, p: nat)
    requires Ordered(t) && Counted(t, |t.order|, counts) && classes == ClassOrder(t, |t.order|) && p < |classes|
    requires Maximal(t.outcomes, classes[p])
    requires forall q :: 0 <= q < p ==> At(counts, classes[q]) < At(counts, classes[p])
    ensures Leads(t, classes[p])
  {
    var i := ListedAt(t, |t.order|, p);
    forall j: nat, d | j < i && Is(t, j, d)
      ensures !Maximal(t.outcomes, d)
    {
      ListedBefore(t, i, j, d);
      var q :| 0 <= q < p && classes[q] == d;
      CountAll(t, d);
      CountAll(t, classes[p]);
    }
  }

  /** The verdict and its summary; no replay at all is an error. */
  method ClassifyBackend(replays: seq<Replay>) returns (r: Result<(Class, Summary), string>)
    ensures r.Failure? <==> replays == []
    ensures r.Success? ==> Summarises(r.value.1, Collect(Answers(replays)).outcomes)
    ensures r.Success? ==> Decides(Collect(Answers(replays)), r.value.0)
    ensures r.Success? ==>
      var s, answers := r.value.1, Answers(replays);
      && s.queries == |AskedKeys(answers)| && s.unstable == |Contested(answers)|
      && (forall c :: c in s.distribution <==> AlwaysAnswered(answers, c) != {})
      && (forall c :: c in s.distribution ==> s.distribution[c] == |AlwaysAnswered(answers, c)|)
  {
    CollectOrdered(Answers(replays));
    if replays == [] {
      return Failure("need at least one replay");
    }
    var t := CollectReplays(replays);
    var unstable := Unstable(t.outcomes);
    var counts, classes := CountClasses(t);
    var summary := Summary(counts, |t.outcomes|, |unstable|);
    forall c ensures Count(t.outcomes, c) == At(counts, c) { CountAll(t, c); }
    SummaryExact(Answers(replays), summary);
    if unstable != {} || classes == [] {
      return Success((NonDeterministic, summary));
    }
    var p := MostCommon(counts, classes);
    MostCommonMaximal(t, counts, classes, p);
    MostCommonLeads(t, counts, classes, p);
    r := Success((classes[p], summary));
  }

  // ----- What the summary and the verdict mean -----

  const CLASSES := [LastWriteWins, FirstWriteWins, Merge, ConflictFlag, SilentDataLoss, NonDeterministic]

  function SumCounts(outcomes: map<Key, set<Class>>, n: nat): nat
    requires n <= 6
  {
    if n == 0 then 0 else SumCounts(outcomes, n - 1) + Count(outcomes, CLASSES[n - 1])
  }

  function CoveredKeys(outcomes: map<Key, set<Class>>, n: nat): set<Key>
    requires n <= 6
  {
    if n == 0 then {} else CoveredKeys(outcomes, n - 1) + KeysOf(outcomes, CLASSES[n - 1])
  }

  predicate CoveredBy(outs: set<Class>, n: nat)
    requires n <= 6
  {
    exists i :: 0 <= i < n && Stable(outs, CLASSES[i])
  }

  lemma {:induction false} CoveredIff(outcomes: map<Key, set<Class>>, n: nat, k: Key)
    requires n <= 6
    ensures k in CoveredKeys(outcomes, n) <==> k in outcomes && CoveredBy(outcomes[k], n)
  {
    if n > 0 {
      CoveredIff(outcomes, n - 1, k);
    }
  }

  lemma DistinctClasses(i: nat, j: nat)
    requires i < 6 && j < 6 && CLASSES[i] == CLASSES[j]
    ensures i == j
  {
  }

  lemma CoveredOnce(outcomes: map<Key, set<Class>>, n: nat, k: Key)
    requires 0 < n <= 6 && k in CoveredKeys(outcomes, n - 1)
    ensures k !in KeysOf(outcomes, CLASSES[n - 1])
  {
    CoveredIff(outcomes, n - 1, k);
    var i :| 0 <= i < n - 1 && Stable(outcomes[k], CLASSES[i]);
    assert CLASSES[i] in outcomes[k];
    if CLASSES[i] == CLASSES[n - 1] {
      DistinctClasses(i, n - 1);
    }
  }

  lemma {:induction false} CoveredCount(outcomes: map<Key, set<Class>>, n: nat)
    requires n <= 6
    ensures |CoveredKeys(outcomes, n)| == SumCounts(outcomes, n)
  {
    if n > 0 {
      var before, more := CoveredKeys(outcomes, n - 1), KeysOf(outcomes, CLASSES[n - 1]);
      CoveredCount(outcomes, n - 1);
      forall k | k in before
        ensures k !in more
      {
        CoveredOnce(outcomes, n, k);
      }
    }
  }

  lemma StableOrUnstable(outs: set<Class>)
    requires outs != {}
    ensures CoveredBy(outs, 6) <==> |outs| <= 1
  {
    if |outs| <= 1 {
      var c :| c in outs;
      assert |outs - {c}| == 0;
      ListedClass(c);
    }
  }

  lemma ListedClass(c: Class)
    ensures exists i :: 0 <= i < 6 && CLASSES[i] == c
  {
    assert CLASSES[0] == LastWriteWins && CLASSES[1] == FirstWriteWins && CLASSES[2] == Merge;
    assert CLASSES[3] == ConflictFlag && CLASSES[4] == SilentDataLoss && CLASSES[5] == NonDeterministic;
  }

  lemma {:induction false} CollectNonEmpty(answers: seq<Answer>)
    ensures forall k :: k in Collect(answers).outcomes ==> Collect(answers).outcomes[k] != {}
  {
    if answers != [] {
      CollectNonEmpty(answers[..|answers| - 1]);
    }
  }

  /** Every query is counted once: under its one class, or as unstable. */
  lemma CountsAddUp(answers: seq<Answer>, outcomes: map<Key, set<Class>>)
    requires outcomes == Collect(answers).outcomes
    ensures SumCounts(outcomes, 6) + |Unstable(outcomes)| == |outcomes|
  {
    CollectNonEmpty(answers);
    forall k | k in outcomes
      ensures k in CoveredKeys(outcomes, 6) <==> k !in Unstable(outcomes)
    {
      CoveredIff(outcomes, 6, k);
      StableOrUnstable(outcomes[k]);
    }
    forall k | k in CoveredKeys(outcomes, 6) ensures k in outcomes { CoveredIff(outcomes, 6, k); }
    CoveredCount(outcomes, 6);
    assert CoveredKeys(outcomes, 6) + Unstable(outcomes) == outcomes.Keys;
    assert |outcomes| == |outcomes.Keys|;
  }

  ghost predicate SameAnswers(a: seq<Answer>, b: seq<Answer>) { forall x :: x in a <==> x in b }

  /** Reordering or repeating replays, or the queries in them, changes no set of outcomes, so no count. */
  lemma OutcomesOrderFree(a: seq<Answer>, b: seq<Answer>)
    requires SameAnswers(a, b)
    ensures Collect(a).outcomes == Collect(b).outcomes
  {
    var x, y := Collect(a).outcomes, Collect(b).outcomes;
    forall k
      ensures k in x <==> k in y
      ensures k in x && k in y ==> x[k] == y[k]
    {
      CollectExact(a, k, Merge);
      CollectExact(b, k, Merge);
      forall c ensures k in x && k in y ==> (c in x[k] <==> c in y[k]) {
        CollectExact(a, k, c);
        CollectExact(b, k, c);
      }
    }
  }

  lemma LeadsUnique(t: Tally, c: Class, d: Class)
    requires Leads(t, c) && Leads(t, d)
    ensures c == d
  {
    var i: nat :| Is(t, i, c) && forall j: nat, e :: j < i && Is(t, j, e) ==> !Maximal(t.outcomes, e);
    var k: nat :| Is(t, k, d) && forall j: nat, e :: j < k && Is(t, j, e) ==> !Maximal(t.outcomes, e);
    assert i == k;
    assert d in t.outcomes[t.order[i]];
  }

  lemma VerdictUnique(t: Tally, v: Class, w: Class)
    requires Decides(t, v) && Decides(t, w)
    ensures v == w
  {
    if !(Unstable(t.outcomes) != {} || forall c :: Count(t.outcomes, c) == 0) {
      LeadsUnique(t, v, w);
    }
  }

  /** From single-query classes, non-deterministic means that some key is unstable or that there is no key. */
  lemma NonDeterministicIff(answers: seq<Answer>, t: Tally, verdict: Class)
    requires t == Collect(answers) && Decides(t, verdict) && forall a :: a in answers ==> a.outcome != NonDeterministic
    ensures verdict == NonDeterministic <==> Unstable(t.outcomes) != {} || t.outcomes == map[]
  {
    var outcomes := t.outcomes;
    if Unstable(outcomes) == {} && outcomes != map[] {
      var k :| k in outcomes;
      CollectNonEmpty(answers);
      var c :| c in outcomes[k];
      assert k !in Unstable(outcomes);
      OneElement(outcomes[k], c);
      assert k in KeysOf(outcomes, c);
      assert Count(outcomes, c) > 0;
      var i: nat :| Is(t, i, verdict);
      CollectExact(answers, t.order[i], verdict);
      assert verdict in outcomes[t.order[i]];
    }
  }

  /** No query is unstable, and some class is maximal. */
  ghost predicate Decided(outcomes: map<Key, set<Class>>) {
    Unstable(outcomes) == {} && exists c :: Count(outcomes, c) > 0
  }

  // ----- The summary in terms of the answers -----

  ghost function AskedKeys(answers: seq<Answer>): set<Key> { set a | a in answers :: a.key }

  /** Keys with two different answers. */
  ghost function Contested(answers: seq<Answer>): set<Key> {
    set a | a in answers && (exists b :: b in answers && b.key == a.key && b.outcome != a.outcome) :: a.key
  }

  /** Keys answered with c every time. */
  ghost function AlwaysAnswered(answers: seq<Answer>, c: Class): set<Key> {
    set a | a in answers && a.outcome == c && (forall b :: b in answers && b.key == a.key ==> b.outcome == c) :: a.key
  }

  lemma CollectedKeys(answers: seq<Answer>)
    ensures Collect(answers).outcomes.Keys == AskedKeys(answers)
  {
    forall k
      ensures k in Collect(answers).outcomes <==> k in AskedKeys(answers)
    {
      CollectExact(answers, k, Merge);
    }
  }

  lemma KeysOfAnswers(answers: seq<Answer>, c: Class)
    ensures KeysOf(Collect(answers).outcomes, c) == AlwaysAnswered(answers, c)
  {
    var outcomes := Collect(answers).outcomes;
    forall k
      ensures k in KeysOf(outcomes, c) <==> k in AlwaysAnswered(answers, c)
    {
      forall d: Class ensures k in outcomes ==> (d in outcomes[k] <==> Answer(k, d) in answers) { CollectExact(answers, k, d); }
      CollectExact(answers, k, c);
      if k in outcomes {
        var a :| a in answers && a.key == k;
        assert a == Answer(k, a.outcome);
        if Answer(k, c) in answers && forall b :: b in answers && b.key == k ==> b.outcome == c {
          assert forall d :: d in outcomes[k] ==> Answer(k, d) in answers;
          assert outcomes[k] == {c};
        }
        if outcomes[k] == {c} {
          forall b | b in answers && b.key == k
            ensures b.outcome == c
          {
            assert b == Answer(k, b.outcome);
            assert b.outcome in outcomes[k];
          }
          assert Answer(k, c) in answers && Answer(k, c).key == k;
        }
      }
    }
  }

  lemma ManyOutcomes(outs: set<Class>, c: Class)
    requires c in outs
    ensures |outs| > 1 <==> exists d :: d in outs && d != c
  {
    if |outs| == 1 {
      OneElement(outs, c);
    }
    assert (forall d :: d in outs ==> d == c) ==> outs == {c};
  }

  lemma UnstableAnswers(answers: seq<Answer>)
    ensures Unstable(Collect(answers).outcomes) == Contested(answers)
  {
    var outcomes := Collect(answers).outcomes;
    forall k
      ensures k in Unstable(outcomes) <==> k in Contested(answers)
    {
      forall d: Class ensures k in outcomes ==> (d in outcomes[k] <==> Answer(k, d) in answers) { CollectExact(answers, k, d); }
      CollectExact(answers, k, Merge);
      if k in outcomes {
        var a :| a in answers && a.key == k;
        assert a == Answer(k, a.outcome);
        ManyOutcomes(outcomes[k], a.outcome);
        if d :| d in outcomes[k] && d != a.outcome {
          assert Answer(k, d) in answers && Answer(k, d).key == a.key;
        }
        if k in Contested(answers) {
          var x, y :| x in answers && y in answers && x.key == y.key == k && x.outcome != y.outcome;
          assert x == Answer(k, x.outcome) && y == Answer(k, y.outcome);
        }
      }
    }
  }

  /** No key is contested and something was answered: then the counts decide. */
  lemma DecidedMeans(answers: seq<Answer>)
    ensures Decided(Collect(answers).outcomes) <==> Contested(answers) == {} && answers != []
  {
    var outcomes := Collect(answers).outcomes;
    UnstableAnswers(answers);
    forall c ensures Count(outcomes, c) == |AlwaysAnswered(answers, c)| { KeysOfAnswers(answers, c); }
    if Contested(answers) == {} && answers != [] {
      var a := answers[0];
      assert forall b :: b in answers && b.key == a.key ==> b.outcome == a.outcome by {
        forall b | b in answers && b.key == a.key
          ensures b.outcome == a.outcome
        {
          assert b.outcome != a.outcome ==> a.key in Contested(answers);
        }
      }
      assert a.key in AlwaysAnswered(answers, a.outcome);
    }
    if c :| Count(outcomes, c) > 0 {
      assert AlwaysAnswered(answers, c) != {};
    }
  }

  /** The summary counts keys, contested keys, and per class the keys that always got it. */
  lemma SummaryExact(answers: seq<Answer>, s: Summary)
    requires Summarises(s, Collect(answers).outcomes)
    ensures s.queries == |AskedKeys(answers)| && s.unstable == |Contested(answers)|
    ensures forall c :: c in s.distribution <==> AlwaysAnswered(answers, c) != {}
    ensures forall c :: c in s.distribution ==> s.distribution[c] == |AlwaysAnswered(answers, c)|
  {
    CollectedKeys(answers);
    UnstableAnswers(answers);
    forall c ensures KeysOf(Collect(answers).outcomes, c) == AlwaysAnswered(answers, c) { KeysOfAnswers(answers, c); }
    assert |Collect(answers).outcomes| == |Collect(answers).outcomes.Keys|;
  }

  // ----- When the verdict depends on order -----

  /** The class of the first answer that is of a maximal class. */
  ghost function FirstLead(answers: seq<Answer>, outcomes: map<Key, set<Class>>): Option<Class> {
    if answers == [] then None
    else if Maximal(outcomes, answers[0].outcome) then Some(answers[0].outcome)
    else FirstLead(answers[1..], outcomes)
  }

  lemma {:induction false} LeadOfAppend(a: seq<Answer>, b: seq<Answer>, outcomes: map<Key, set<Class>>)
    ensures FirstLead(a + b, outcomes) == if FirstLead(a, outcomes).Some? then FirstLead(a, outcomes) else FirstLead(b, outcomes)
  {
    if a == [] {
      assert a + b == b;
    } else {
      assert (a + b)[1..] == a[1..] + b;
      LeadOfAppend(a[1..], b, outcomes);
    }
  }

  /** The first answer of a maximal class, and what comes before and after it. */
  lemma {:induction false} LeadSplits(answers: seq<Answer>, outcomes: map<Key, set<Class>>, c: Class)
    returns (front: seq<Answer>, a: Answer, back: seq<Answer>)
    requires FirstLead(answers, outcomes) == Some(c)
    ensures answers == front + [a] + back && a.outcome == c && Maximal(outcomes, c)
    ensures forall x :: x in front ==> !Maximal(outcomes, x.outcome)
  {
    if Maximal(outcomes, answers[0].outcome) {
      front, a, back := [], answers[0], answers[1..];
    } else {
      front, a, back := LeadSplits(answers[1..], outcomes, c);
      front := [answers[0]] + front;
    }
  }

  lemma {:induction false} OrderGrows(a: seq<Answer>, b: seq<Answer>)
    ensures Collect(a).order <= Collect(a + b).order
    decreases |b|
  {
    if b == [] {
      assert a + b == a;
    } else {
      assert (a + b)[..|a + b| - 1] == a + b[..|b| - 1];
      OrderGrows(a, b[..|b| - 1]);
    }
  }

  lemma OnlyOutcome(answers: seq<Answer>, outcomes: map<Key, set<Class>>, a: Answer)
    requires outcomes == Collect(answers).outcomes && Unstable(outcomes) == {} && a in answers
    ensures a.key in outcomes && outcomes[a.key] == {a.outcome}
  {
    CollectExact(answers, a.key, a.outcome);
    assert a == Answer(a.key, a.outcome);
    assert a.key !in Unstable(outcomes);
    assert a.outcome in outcomes[a.key];
    if |outcomes[a.key]| == 1 {
      OneElement(outcomes[a.key], a.outcome);
    }
  }

  /** A key that is new after `front` is listed right after the keys of `front`. */
  lemma NewKeyPosition(front: seq<Answer>, a: Answer, back: seq<Answer>, f: Tally, t: Tally)
    requires f == Collect(front) && t == Collect(front + [a] + back) && a.key !in f.outcomes
    ensures |f.order| < |t.order| && t.order[|f.order|] == a.key
    ensures forall j :: 0 <= j < |f.order| ==> t.order[j] in f.outcomes
  {
    OrderGrows(front + [a], back);
    CollectOrdered(front);
    assert f.order + [a.key] <= t.order;
    assert forall j :: 0 <= j < |f.order| ==> f.order[j] in f.order && t.order[j] == f.order[j];
  }

  /** An answer of a maximal class with none before it: then its class leads. */
  lemma FirstLeadLeads(front: seq<Answer>, a: Answer, back: seq<Answer>, t: Tally)
    requires t == Collect(front + [a] + back) && Unstable(t.outcomes) == {} && Maximal(t.outcomes, a.outcome)
    requires forall x :: x in front ==> !Maximal(t.outcomes, x.outcome)
    ensures Leads(t, a.outcome)
  {
    var f, all := Collect(front), front + [a] + back;
    assert a in all && forall x :: x in front ==> x in all;
    OnlyOutcome(all, t.outcomes, a);
    if a.key in f.outcomes {
      EarlierAnswer(front, all, a.key, a.outcome);
    }
    NewKeyPosition(front, a, back, f, t);
    assert Is(t, |f.order|, a.outcome);
    forall j: nat, d | j < |f.order| && Is(t, j, d)
      ensures !Maximal(t.outcomes, d)
    {
      EarlierAnswer(front, all, t.order[j], d);
    }
  }

  /** A key answered in `front` has there the one outcome it has at all. */
  lemma EarlierAnswer(front: seq<Answer>, all: seq<Answer>, k: Key, d: Class)
    requires (forall x :: x in front ==> x in all) && Unstable(Collect(all).outcomes) == {}
    requires k in Collect(front).outcomes && k in Collect(all).outcomes && d in Collect(all).outcomes[k]
    ensures Answer(k, d) in front
  {
    CollectExact(front, k, d);
    var x :| x in front && x.key == k;
    OnlyOutcome(all, Collect(all).outcomes, x);
    assert x == Answer(k, d);
  }

  /** On a decided list of answers the verdict is the class of the first answer of a maximal class. */
  lemma VerdictIsFirstLead(answers: seq<Answer>, outcomes: map<Key, set<Class>>, verdict: Class)
    requires outcomes == Collect(answers).outcomes && Decided(outcomes)
    ensures Decides(Collect(answers), verdict) <==> FirstLead(answers, outcomes) == Some(verdict)
  {
    if FirstLead(answers, outcomes) == Some(verdict) {
      var front, a, back := LeadSplits(answers, outcomes, verdict);
      FirstLeadLeads(front, a, back, Collect(answers));
    }
    if Decides(Collect(answers), verdict) {
      var _ := SomeLead(answers, outcomes, verdict);
      var c := FirstLead(answers, outcomes).value;
      var front, a, back := LeadSplits(answers, outcomes, c);
      FirstLeadLeads(front, a, back, Collect(answers));
      LeadsUnique(Collect(answers), c, verdict);
    }
  }

  lemma {:induction false} LeadExists(answers: seq<Answer>, outcomes: map<Key, set<Class>>, a: Answer)
    requires a in answers && Maximal(outcomes, a.outcome)
    ensures FirstLead(answers, outcomes).Some?
  {
    if !Maximal(outcomes, answers[0].outcome) {
      LeadExists(answers[1..], outcomes, a);
    }
  }

  lemma SomeLead(answers: seq<Answer>, outcomes: map<Key, set<Class>>, c: Class) returns (a: Answer)
    requires outcomes == Collect(answers).outcomes && Maximal(outcomes, c)
    ensures a in answers && a.outcome == c && FirstLead(answers, outcomes).Some?
  {
    assert KeysOf(outcomes, c) != {};
    var k :| k in KeysOf(outcomes, c);
    assert c in outcomes[k];
    CollectExact(answers, k, c);
    a := Answer(k, c);
    LeadExists(answers, outcomes, a);
  }

  // ----- Rearranging replays -----

  lemma {:induction false} InAnswers(replays: seq<Replay>, x: Answer)
    ensures x in Answers(replays) <==> exists r :: r in replays && x in r
  {
    if replays != [] {
      var front, last := replays[..|replays| - 1], replays[|replays| - 1];
      InAnswers(front, x);
      assert replays == front + [last];
    }
  }

  lemma {:induction false} AnswersCons(r: Replay, rest: seq<Replay>)
    ensures Answers([r] + rest) == r + Answers(rest)
  {
    if rest == [] {
      assert [r] + rest == [r] && [r][..0] == [];
      assert Answers([r]) == [] + r;
    } else {
      assert ([r] + rest)[..|rest|] == [r] + rest[..|rest| - 1];
      AnswersCons(r, rest[..|rest| - 1]);
      assert r + (Answers(rest[..|rest| - 1]) + rest[|rest| - 1]) == (r + Answers(rest[..|rest| - 1])) + rest[|rest| - 1];
    }
  }

  /** Some replay supplies the verdict. */
  lemma {:induction false} LeadOfReplays(replays: seq<Replay>, outcomes: map<Key, set<Class>>)
    ensures FirstLead(Answers(replays), outcomes).Some? ==>
      exists r :: r in replays && FirstLead(r, outcomes) == FirstLead(Answers(replays), outcomes)
  {
    if replays != [] {
      var front, last := replays[..|replays| - 1], replays[|replays| - 1];
      LeadOfReplays(front, outcomes);
      LeadOfAppend(Answers(front), last, outcomes);
      assert replays == front + [last];
    }
  }

  /** The same replays, each as often, in another order. */
  ghost predicate Permuted(replays: seq<Replay>, other: seq<Replay>) { multiset(other) == multiset(replays) }

  lemma PermutedSame(replays: seq<Replay>, other: seq<Replay>)
    requires Permuted(replays, other)
    ensures forall r :: r in other <==> r in replays
    ensures SameAnswers(Answers(replays), Answers(other))
  {
    assert forall r :: (r in other <==> r in multiset(other)) && (r in replays <==> r in multiset(replays));
    forall x ensures x in Answers(replays) <==> x in Answers(other) {
      InAnswers(replays, x);
      InAnswers(other, x);
    }
  }

  /** Another order of the replays has verdict v. */
  ghost predicate PermutedVerdict(replays: seq<Replay>, other: seq<Replay>, v: Class) {
    Permuted(replays, other) && Decides(Collect(Answers(other)), v)
  }

  /** Every replay with an answer of a maximal class has the same class first among those. */
  ghost predicate FirstLeadsAgree(replays: seq<Replay>, outcomes: map<Key, set<Class>>) {
    forall r, s :: r in replays && s in replays && FirstLead(r, outcomes).Some? && FirstLead(s, outcomes).Some?
      ==> FirstLead(r, outcomes) == FirstLead(s, outcomes)
  }

  /** The replay that is put first decides, if it can. */
  lemma ReplayFirst(replays: seq<Replay>, outcomes: map<Key, set<Class>>, r: Replay,
                    c: Class) returns (other: seq<Replay>)
    requires outcomes == Collect(Answers(replays)).outcomes && Decided(outcomes)
    requires r in replays && FirstLead(r, outcomes) == Some(c)
    ensures PermutedVerdict(replays, other, c)
  {
    var i :| 0 <= i < |replays| && replays[i] == r;
    var rest := replays[..i] + replays[i + 1..];
    other := [r] + rest;
    assert replays == replays[..i] + [r] + replays[i + 1..];
    PermutedSame(replays, other);
    OutcomesOrderFree(Answers(replays), Answers(other));
    AnswersCons(r, rest);
    LeadOfAppend(r, Answers(rest), outcomes);
    VerdictIsFirstLead(Answers(other), outcomes, c);
  }

  /** The verdict does not depend on the order of the replays exactly when their first leads agree. */
  lemma ReplayOrderFreeIff(replays: seq<Replay>, outcomes: map<Key, set<Class>>, verdict: Class)
    requires outcomes == Collect(Answers(replays)).outcomes && Decided(outcomes)
    requires Decides(Collect(Answers(replays)), verdict)
    ensures (forall other, v :: PermutedVerdict(replays, other, v) ==> v == verdict) <==> FirstLeadsAgree(replays, outcomes)
  {
    VerdictIsFirstLead(Answers(replays), outcomes, verdict);
    LeadOfReplays(replays, outcomes);
    var mine :| mine in replays && FirstLead(mine, outcomes) == Some(verdict);
    forall other, v | PermutedVerdict(replays, other, v)
      ensures exists r :: r in replays && FirstLead(r, outcomes) == Some(v)
    {
      PermutedSame(replays, other);
      OutcomesOrderFree(Answers(replays), Answers(other));
      VerdictIsFirstLead(Answers(other), outcomes, v);
      LeadOfReplays(other, outcomes);
    }
    forall r | r in replays && FirstLead(r, outcomes).Some?
      ensures exists other :: PermutedVerdict(replays, other, FirstLead(r, outcomes).value)
    {
      var other := ReplayFirst(replays, outcomes, r, FirstLead(r, outcomes).value);
    }
  }

  lemma OneAnswerPerKey(answers: seq<Answer>, outcomes: map<Key, set<Class>>, a: Answer, b: Answer)
    requires outcomes == Collect(answers).outcomes && Unstable(outcomes) == {}
    requires a in answers && b in answers && a.key == b.key
    ensures a == b
  {
    OnlyOutcome(answers, outcomes, a);
    OnlyOutcome(answers, outcomes, b);
    assert a.outcome in outcomes[b.key];
  }

  /** Replays that list the same keys in the same order cannot disagree, tie or no tie. */
  lemma AlignedReplaysAgree(replays: seq<Replay>, outcomes: map<Key, set<Class>>)
    requires outcomes == Collect(Answers(replays)).outcomes && Unstable(outcomes) == {}
    requires forall r: Replay, s: Replay :: r in replays && s in replays ==>
      |r| == |s| && forall i :: 0 <= i < |r| ==> r[i].key == s[i].key
    ensures FirstLeadsAgree(replays, outcomes)
  {
    forall r: Replay, s: Replay | r in replays && s in replays
      ensures r == s
    {
      forall i | 0 <= i < |r| ensures r[i] == s[i] {
        InAnswers(replays, r[i]);
        InAnswers(replays, s[i]);
        OneAnswerPerKey(Answers(replays), outcomes, r[i], s[i]);
      }
    }
  }

  /** Two replays of one query each, and their reverse: the verdict changes. */
  lemma ReplayOrderDecides(k: Key, l: Key, replays: seq<Replay>, other: seq<Replay>)
    requires k != l && replays == [[Answer(k, LastWriteWins)], [Answer(l, FirstWriteWins)]] && other == [replays[1], replays[0]]
    ensures Permuted(replays, other)
    ensures Decides(Collect(Answers(replays)), LastWriteWins) && Decides(Collect(Answers(other)), FirstWriteWins)
  {
    var a, b := Answer(k, LastWriteWins), Answer(l, FirstWriteWins);
    assert replays == [[a]] + [[b]] && other == [[b]] + [[a]];
    AnswersCons([a], [[b]]);
    AnswersCons([b], [[a]]);
    assert [[b]][..0] == [] && [[a]][..0] == [];
    assert Answers([[b]]) == [b] && Answers([[a]]) == [a];
    TwoAnswers(a, b);
    TwoAnswers(b, a);
  }

  lemma TwoAnswers(a: Answer, b: Answer)
    requires a.key != b.key && a.outcome != b.outcome
    ensures Decides(Collect([a] + [b]), a.outcome)
  {
    var t := Collect([a] + [b]);
    assert ([a] + [b])[..1] == [a] && [a][..0] == [];
    assert Collect([a]) == Enter(Collect([]), a) == Tally([a.key], map[a.key := {a.outcome}]);
    assert t == Enter(Collect([a]), b);
    assert t == Tally([a.key, b.key], map[a.key := {a.outcome}, b.key := {b.outcome}]);
    forall c
      ensures KeysOf(t.outcomes, c) == if c == a.outcome then {a.key} else if c == b.outcome then {b.key} else {}
    {
      assert {a.outcome} == {c} ==> a.outcome in {c};
      assert {b.outcome} == {c} ==> b.outcome in {c};
    }
    assert Unstable(t.outcomes) == {};
    assert Count(t.outcomes, a.outcome) == 1;
    assert Is(t, 0, a.outcome);
  }

  // ----- Rearranging the queries as well -----

  function Contents(replays: seq<Replay>): seq<multiset<Answer>> {
    seq(|replays|, i requires 0 <= i < |replays| => multiset(replays[i]))
  }

  /** The same replays as mappings, each as often: replays and the queries in each may change places. */
  ghost predicate Rearranged(replays: seq<Replay>, other: seq<Replay>) {
    multiset(Contents(other)) == multiset(Contents(replays))
  }

  lemma RearrangedCovers(replays: seq<Replay>, other: seq<Replay>, x: Answer)
    requires Rearranged(replays, other) && x in Answers(replays)
    ensures x in Answers(other)
  {
    InAnswers(replays, x);
    InAnswers(other, x);
    var r :| r in replays && x in r;
    var i :| 0 <= i < |replays| && replays[i] == r;
    assert Contents(replays)[i] in multiset(Contents(other));
    var j :| 0 <= j < |other| && Contents(other)[j] == multiset(r);
    assert x in multiset(r) && other[j] in other;
  }

  lemma RearrangedSame(replays: seq<Replay>, other: seq<Replay>)
    requires Rearranged(replays, other)
    ensures SameAnswers(Answers(replays), Answers(other))
  {
    forall x ensures x in Answers(replays) <==> x in Answers(other) {
      if x in Answers(replays) {
        RearrangedCovers(replays, other, x);
      }
      if x in Answers(other) {
        RearrangedCovers(other, replays, x);
      }
    }
  }

  ghost predicate RearrangedVerdict(replays: seq<Replay>, other: seq<Replay>, v: Class) {
    Rearranged(replays, other) && Decides(Collect(Answers(other)), v)
  }

  /** Any maximal class becomes the verdict when a replay with one of its queries comes first and that query first in it. */
  lemma TieGoesToFirst(replays: seq<Replay>, outcomes: map<Key, set<Class>>, c: Class) returns (other: seq<Replay>)
    requires outcomes == Collect(Answers(replays)).outcomes && Decided(outcomes) && Maximal(outcomes, c)
    ensures RearrangedVerdict(replays, other, c)
  {
    var a := SomeLead(Answers(replays), outcomes, c);
    InAnswers(replays, a);
    var r :| r in replays && a in r;
    var i :| 0 <= i < |replays| && replays[i] == r;
    var j :| 0 <= j < |r| && r[j] == a;
    var moved, rest := [a] + (r[..j] + r[j + 1..]), replays[..i] + replays[i + 1..];
    assert r == r[..j] + [a] + r[j + 1..];
    assert multiset(moved) == multiset(r);
    other := [moved] + rest;
    ContentsMoved(replays, i, moved, other);
    RearrangedSame(replays, other);
    OutcomesOrderFree(Answers(replays), Answers(other));
    AnswersCons(moved, rest);
    LeadOfAppend(moved, Answers(rest), outcomes);
    VerdictIsFirstLead(Answers(other), outcomes, c);
  }

  lemma ContentsMoved(replays: seq<Replay>, i: nat, moved: Replay, other: seq<Replay>)
    requires i < |replays| && multiset(moved) == multiset(replays[i])
    requires other == [moved] + (replays[..i] + replays[i + 1..])
    ensures Rearranged(replays, other)
  {
    var x := Contents(replays);
    assert x == x[..i] + [x[i]] + x[i + 1..];
    assert Contents(other) == [x[i]] + (x[..i] + x[i + 1..]);
  }

  /** The verdict depends on neither order exactly when one class is in the lead alone. */
  lemma VerdictOrderFreeIff(replays: seq<Replay>, outcomes: map<Key, set<Class>>, verdict: Class)
    requires outcomes == Collect(Answers(replays)).outcomes && Decided(outcomes)
    ensures (forall other, v :: RearrangedVerdict(replays, other, v) ==> v == verdict)
       <==> (forall c :: Maximal(outcomes, c) ==> c == verdict)
  {
    forall other, v | RearrangedVerdict(replays, other, v)
      ensures Maximal(outcomes, v)
    {
      RearrangedSame(replays, other);
      OutcomesOrderFree(Answers(replays), Answers(other));
    }
    forall c | Maximal(outcomes, c)
      ensures exists other :: RearrangedVerdict(replays, other, c)
    {
      var other := TieGoesToFirst(replays, outcomes, c);
    }
  }
}
