/**
 The W9 experiment: a trace of turns spread over sessions is replayed in canonical order against session
 handles over one shared vector store, and each query's retrieved facts are scored for cross-session leakage
 and survivor recall.

 The handles of a cluster differ only in their tombstones, so a cluster is one object whose operations take
 the session index. The embedder is a similarity function of query and content.
 */
module CrossSessionReplay {
  import opened Sorting

  type FactId = string

  datatype Turn = Turn(id: string, timestamp: int, content: string, introduces: seq<FactId>, deletes: seq<FactId>,
                       isQuery: bool)

  type Sessions = seq<seq<Turn>>

  // ----- Canonical order -----

  datatype Row = Row(ts: int, si: nat, ti: nat)

  predicate RowLeq(a: Row, b: Row) {
    a.ts < b.ts || (a.ts == b.ts && (a.si < b.si || (a.si == b.si && a.ti <= b.ti)))
  }

  function SessionRows(turns: seq<Turn>, si: nat, k: nat): seq<Row>
    requires k <= |turns|
  {
    if k == 0 then [] else SessionRows(turns, si, k - 1) + [Row(turns[k - 1].timestamp, si, k - 1)]
  }

  function AllRows(sessions: Sessions, k: nat): seq<Row>
    requires k <= |sessions|
  {
    if k == 0 then [] else AllRows(sessions, k - 1) + SessionRows(sessions[k - 1], k - 1, |sessions[k - 1]|)
  }

  method OrderedRows(sessions: Sessions) returns (rows: seq<Row>)
    ensures rows == Canonical(sessions)
  {
    rows := [];
    for si := 0 to |sessions|
      invariant rows == AllRows(sessions, si)
    {
      ghost var before := rows;
      for ti := 0 to |sessions[si]|
        invariant rows == before + SessionRows(sessions[si], si, ti)
      {
        rows := rows + [Row(sessions[si][ti].timestamp, si, ti)];
      }
    }
    rows := Sort(RowLeq, rows);
  }

  function Canonical(sessions: Sessions): seq<Row> {
    Sort(RowLeq, AllRows(sessions, |sessions|))
  }

  predicate InSession(turns: seq<Turn>, si: nat, k: nat, r: Row)
    requires k <= |turns|
  {
    r.si == si && r.ti < k && r.ts == turns[r.ti].timestamp
  }

  predicate RowOf(sessions: Sessions, r: Row) {
    r.si < |sessions| && InSession(sessions[r.si], r.si, |sessions[r.si]|, r)
  }

  function Count(b: bool): nat { if b then 1 else 0 }

  /** How often x occurs in s. */
  function Occurs<T(==)>(s: seq<T>, x: T): nat {
    if s == [] then 0 else Occurs(s[..|s| - 1], x) + Count(s[|s| - 1] == x)
  }

  lemma {:induction false} OccursInMultiset<T>(s: seq<T>, x: T)
    ensures Occurs(s, x) == multiset(s)[x]
  {
    if s != [] {
      OccursInMultiset(s[..|s| - 1], x);
      assert s == s[..|s| - 1] + [s[|s| - 1]];
    }
  }

  lemma {:induction false} OccursAppend<T>(a: seq<T>, b: seq<T>, x: T)
    ensures Occurs(a + b, x) == Occurs(a, x) + Occurs(b, x)
    decreases |b|
  {
    if b == [] {
      assert a + b == a;
    } else {
      assert (a + b)[..|a + b| - 1] == a + b[..|b| - 1];
      OccursAppend(a, b[..|b| - 1], x);
    }
  }

  lemma {:induction false} SessionRowsExact(turns: seq<Turn>, si: nat, k: nat, r: Row)
    requires k <= |turns|
    ensures Occurs(SessionRows(turns, si, k), r) == Count(InSession(turns, si, k, r))
  {
    if k > 0 {
      SessionRowsExact(turns, si, k - 1, r);
    }
  }

  lemma {:induction false} AllRowsExact(sessions: Sessions, k: nat, r: Row)
    requires k <= |sessions|
    ensures Occurs(AllRows(sessions, k), r) == Count(r.si < k && RowOf(sessions, r))
  {
    if k > 0 {
      var turns := sessions[k - 1];
      AllRowsExact(sessions, k - 1, r);
      SessionRowsExact(turns, k - 1, |turns|, r);
      OccursAppend(AllRows(sessions, k - 1), SessionRows(turns, k - 1, |turns|), r);
    }
  }

  lemma Multiplicity<T>(s: seq<T>, i: nat, j: nat)
    requires i < j < |s| && s[i] == s[j]
    ensures multiset(s)[s[i]] > 1
  {
    assert s == s[..i] + [s[i]] + s[i + 1..j] + [s[j]] + s[j + 1..];
  }

  /** Canonical order lists the turns of all sessions, each once, by time. */
  lemma CanonicalRows(sessions: Sessions, rows: seq<Row>, r: Row)
    requires rows == Canonical(sessions)
    ensures Ascending(RowLeq, rows)
    ensures multiset(rows)[r] == Count(RowOf(sessions, r))
  {
    SortSorted(RowLeq, AllRows(sessions, |sessions|));
    AllRowsExact(sessions, |sessions|, r);
    OccursInMultiset(AllRows(sessions, |sessions|), r);
  }

  lemma CanonicalAt(sessions: Sessions, rows: seq<Row>, i: nat)
    requires rows == Canonical(sessions) && i < |rows|
    ensures RowOf(sessions, rows[i])
  {
    CanonicalRows(sessions, rows, rows[i]);
    assert rows[i] in multiset(rows);
  }

  ghost predicate DistinctTimes(sessions: Sessions) {
    forall a, b :: RowOf(sessions, a) && RowOf(sessions, b) && a.ts == b.ts ==> a == b
  }

  /** No two turns, of one session or of two, bear one timestamp. */
  lemma DistinctTimesIff(sessions: Sessions)
    ensures DistinctTimes(sessions) <==>
      forall si: nat, ti: nat, sj: nat, tj: nat :: IsTurn(sessions, si, ti) && IsTurn(sessions, sj, tj) && (si != sj || ti != tj) ==>
        sessions[si][ti].timestamp != sessions[sj][tj].timestamp
  {
    forall si: nat, ti: nat | IsTurn(sessions, si, ti)
      ensures RowOf(sessions, Row(sessions[si][ti].timestamp, si, ti))
    {
    }
  }

  /** With distinct timestamps time strictly increases along the canonical order. */
  lemma CanonicalTimes(sessions: Sessions, rows: seq<Row>, i: nat, j: nat)
    requires rows == Canonical(sessions) && i < j < |rows| && DistinctTimes(sessions)
    ensures rows[i].ts < rows[j].ts
  {
    CanonicalAt(sessions, rows, i);
    CanonicalAt(sessions, rows, j);
    CanonicalRows(sessions, rows, rows[i]);
    assert RowLeq(rows[i], rows[j]);
    if rows[i] == rows[j] {
      Multiplicity(rows, i, j);
    }
  }

  // ----- What the replay should retrieve -----

  datatype Event = Event(session: nat, turn: Turn)

  function EventOf(sessions: Sessions, r: Row): Event
    requires RowOf(sessions, r)
  {
    Event(r.si, sessions[r.si][r.ti])
  }

  function Events(sessions: Sessions, rows: seq<Row>): (ev: seq<Event>)
    requires forall i :: 0 <= i < |rows| ==> RowOf(sessions, rows[i])
    ensures |ev| == |rows|
    ensures forall i :: 0 <= i < |ev| ==> ev[i] == EventOf(sessions, rows[i])
  {
    seq(|rows|, i requires 0 <= i < |rows| => EventOf(sessions, rows[i]))
  }

  function Elements(fids: seq<FactId>): set<FactId> { set f | f in fids }

  /** Facts introduced by the first k events. */
  function Introduced(ev: seq<Event>, k: nat): set<FactId>
    requires k <= |ev|
  {
    if k == 0 then {} else Introduced(ev, k - 1) + Elements(ev[k - 1].turn.introduces)
  }

  /** Facts deleted by the first k events, from any session. */
  function Deleted(ev: seq<Event>, k: nat): set<FactId>
    requires k <= |ev|
  {
    if k == 0 then {} else Deleted(ev, k - 1) + Elements(ev[k - 1].turn.deletes)
  }

  /** Facts deleted by the first k events from session s. */
  function DeletedFrom(ev: seq<Event>, k: nat, s: nat): set<FactId>
    requires k <= |ev|
  {
    if k == 0 then {}
    else DeletedFrom(ev, k - 1, s) + (if ev[k - 1].session == s then Elements(ev[k - 1].turn.deletes) else {})
  }

  /** What is gone for session s: everything deleted if deletes propagate, else its own deletes only. */
  function Hidden(ev: seq<Event>, k: nat, s: nat, propagate: bool): set<FactId>
    requires k <= |ev|
  {
    if propagate then Deleted(ev, k) else DeletedFrom(ev, k, s)
  }

  /** The answer to a query in event k; the turn's own writes and deletes come first. */
  function Answer(ev: seq<Event>, k: nat, propagate: bool): set<FactId>
    requires k < |ev|
  {
    Introduced(ev, k + 1) - Hidden(ev, k + 1, ev[k].session, propagate)
  }

  function Answers(ev: seq<Event>, k: nat, propagate: bool): seq<(string, set<FactId>)>
    requires k <= |ev|
  {
    if k == 0 then []
    else
      Answers(ev, k - 1, propagate)
      + (if ev[k - 1].turn.isQuery then [(ev[k - 1].turn.id, Answer(ev, k - 1, propagate))] else [])
  }

  /** How many of the first k events ask a query. */
  function Queries(ev: seq<Event>, k: nat): nat
    requires k <= |ev|
  {
    if k == 0 then 0 else Queries(ev, k - 1) + Count(ev[k - 1].turn.isQuery)
  }

  /** f was introduced up to and in event k, and not deleted by anyone whose deletes the asking session sees. */
  ghost predicate Expected(ev: seq<Event>, k: nat, propagate: bool, f: FactId)
    requires k < |ev|
  {
    && (exists i :: 0 <= i <= k && f in ev[i].turn.introduces)
    && !(exists j :: 0 <= j <= k && f in ev[j].turn.deletes && (propagate || ev[j].session == ev[k].session))
  }

  /** One entry per query, in order: its turn's id and exactly the facts to be expected. */
  ghost predicate AnswersEveryQuery(ev: seq<Event>, n: nat, perQuery: seq<(string, set<FactId>)>, propagate: bool)
    requires n <= |ev|
  {
    && |perQuery| == Queries(ev, n)
    && forall k :: 0 <= k < n && ev[k].turn.isQuery ==>
         && Queries(ev, k) < |perQuery|
         && perQuery[Queries(ev, k)].0 == ev[k].turn.id
         && forall f :: f in perQuery[Queries(ev, k)].1 <==> Expected(ev, k, propagate, f)
  }

  lemma {:induction false} IntroducedIff(ev: seq<Event>, k: nat, f: FactId)
    requires k <= |ev|
    ensures f in Introduced(ev, k) <==> exists i :: 0 <= i < k && f in ev[i].turn.introduces
  {
    if k > 0 {
      IntroducedIff(ev, k - 1, f);
    }
  }

  lemma AnswerIff(ev: seq<Event>, k: nat, propagate: bool, f: FactId)
    requires k < |ev|
    ensures f in Answer(ev, k, propagate) <==> Expected(ev, k, propagate, f)
  {
    IntroducedIff(ev, k + 1, f);
    DeletedIff(ev, k + 1, f);
    DeletedFromIff(ev, k + 1, ev[k].session, f);
    assert (exists j :: 0 <= j <= k && f in ev[j].turn.deletes) <==> DeletedBy(ev, k + 1, f);
  }

  lemma {:induction false} QueriesMonotone(ev: seq<Event>, j: nat, k: nat)
    requires j <= k <= |ev|
    ensures Queries(ev, j) <= Queries(ev, k)
  {
    if j < k {
      QueriesMonotone(ev, j, k - 1);
    }
  }

  /** Every query has its own entry, whichever session asks. */
  lemma {:induction false} EveryQueryIsAnswered(ev: seq<Event>, n: nat, propagate: bool)
    requires n <= |ev|
    ensures AnswersEveryQuery(ev, n, Answers(ev, n, propagate), propagate)
  {
    if n > 0 {
      var before, after, last := Answers(ev, n - 1, propagate), Answers(ev, n, propagate), n - 1;
      EveryQueryIsAnswered(ev, last, propagate);
      assert before <= after;
      forall f ensures f in Answer(ev, last, propagate) <==> Expected(ev, last, propagate, f) {
        AnswerIff(ev, last, propagate, f);
      }
      forall k | 0 <= k < n - 1 && ev[k].turn.isQuery
        ensures Queries(ev, k) < |before| && after[Queries(ev, k)] == before[Queries(ev, k)]
      {
        QueriesMonotone(ev, k + 1, n - 1);
      }
    }
  }

  /** Each fact is introduced once, and deleted only when it has been introduced. */
  ghost predicate WellFormed(ev: seq<Event>) {
    forall k :: 0 <= k < |ev| ==> WellFormedAt(ev, k)
  }

  ghost predicate WellFormedAt(ev: seq<Event>, k: nat)
    requires k < |ev|
  {
    && NoRepeats(ev[k].turn.introduces)
    && Elements(ev[k].turn.introduces) !! Introduced(ev, k)
    && Elements(ev[k].turn.deletes) <= Introduced(ev, k + 1)
  }

  /** In terms of the turns: no fact is introduced twice, and a deletion has an introduction before it or in its turn. */
  lemma WellFormedIff(ev: seq<Event>)
    ensures WellFormed(ev) <==>
      && (forall k :: 0 <= k < |ev| ==> NoRepeats(ev[k].turn.introduces))
      && (forall i, k, f :: 0 <= i < k < |ev| && f in ev[i].turn.introduces ==> f !in ev[k].turn.introduces)
      && (forall k, f :: 0 <= k < |ev| && f in ev[k].turn.deletes ==> exists i :: 0 <= i <= k && f in ev[i].turn.introduces)
  {
    forall k, f | 0 <= k <= |ev|
      ensures f in Introduced(ev, k) <==> exists i :: 0 <= i < k && f in ev[i].turn.introduces
    {
      IntroducedIff(ev, k, f);
    }
    forall k | 0 <= k < |ev|
      ensures WellFormedAt(ev, k) <==>
        && NoRepeats(ev[k].turn.introduces)
        && (forall i, f :: 0 <= i < k && f in ev[i].turn.introduces ==> f !in ev[k].turn.introduces)
        && (forall f :: f in ev[k].turn.deletes ==> exists i :: 0 <= i <= k && f in ev[i].turn.introduces)
    {
      WellFormedTurn(ev, k);
    }
  }

  lemma WellFormedTurn(ev: seq<Event>, k: nat)
    requires k < |ev|
    requires forall j, f :: 0 <= j <= |ev| ==> (f in Introduced(ev, j) <==> exists i :: 0 <= i < j && f in ev[i].turn.introduces)
    ensures WellFormedAt(ev, k) <==>
      && NoRepeats(ev[k].turn.introduces)
      && (forall i, f :: 0 <= i < k && f in ev[i].turn.introduces ==> f !in ev[k].turn.introduces)
      && (forall f :: f in ev[k].turn.deletes ==> exists i :: 0 <= i <= k && f in ev[i].turn.introduces)
  {
    assert Elements(ev[k].turn.introduces) !! Introduced(ev, k)
      <==> forall f :: f in Introduced(ev, k) ==> f !in ev[k].turn.introduces;
    assert Elements(ev[k].turn.deletes) <= Introduced(ev, k + 1) <==> forall f :: f in ev[k].turn.deletes ==> f in Introduced(ev, k + 1);
  }

  function Repeated(size: nat, count: nat): nat {
    if count == 0 then 0 else Repeated(size, count - 1) + size
  }

  /** Everything the first k events write, in characters: a turn's content once per fact it introduces. */
  function Volume(ev: seq<Event>, k: nat): nat
    requires k <= |ev|
  {
    if k == 0 then 0 else Volume(ev, k - 1) + Repeated(|ev[k - 1].turn.content|, |ev[k - 1].turn.introduces|)
  }

  /** Turn by turn the volume grows by the length of the content times the number of facts it introduces. */
  lemma {:induction false} VolumeStep(ev: seq<Event>, k: nat)
    requires k < |ev|
    ensures Volume(ev, 0) == 0 && Volume(ev, k + 1) == Volume(ev, k) + |ev[k].turn.content| * |ev[k].turn.introduces|
  {
    RepeatedIsProduct(|ev[k].turn.content|, |ev[k].turn.introduces|);
  }

  lemma {:induction false} RepeatedIsProduct(size: nat, count: nat)
    ensures Repeated(size, count) == size * count
  {
    if count > 0 {
      RepeatedIsProduct(size, count - 1);
      assert size * count == size * (count - 1) + size;
    }
  }

  // ----- The store -----

  type Memories = map<nat, string>

  /** Characters stored under refs below n. */
  function CostBelow(m: Memories, n: nat): nat {
    if n == 0 then 0 else CostBelow(m, n - 1) + (if n - 1 in m then |m[n - 1]| else 0)
  }

  function CostOf(m: Memories, refs: seq<nat>): nat {
    if refs == [] then 0
    else CostOf(m, refs[..|refs| - 1]) + (if refs[|refs| - 1] in m then |m[refs[|refs| - 1]]| else 0)
  }

  lemma {:induction false} CostSame(m: Memories, m': Memories, n: nat)
    requires forall r :: 0 <= r < n ==> (r in m' ==> r in m && m'[r] == m[r])
    ensures CostBelow(m', n) <= CostBelow(m, n)
  {
    if n > 0 {
      CostSame(m, m', n - 1);
    }
  }

  lemma {:induction false} CostSplit(m: Memories, a: seq<nat>, b: seq<nat>)
    ensures CostOf(m, a + b) == CostOf(m, a) + CostOf(m, b)
    decreases |b|
  {
    if b == [] {
      assert a + b == a;
    } else {
      assert (a + b)[..|a + b| - 1] == a + b[..|b| - 1];
      CostSplit(m, a, b[..|b| - 1]);
    }
  }

  function CostAt(m: Memories, r: nat): nat { if r in m then |m[r]| else 0 }

  lemma CostPullOut(m: Memories, refs: seq<nat>, k: nat)
    requires k < |refs|
    ensures CostOf(m, refs) == CostOf(m, refs[..k] + refs[k + 1..]) + CostAt(m, refs[k])
  {
    assert refs == refs[..k + 1] + refs[k + 1..];
    CostSplit(m, refs[..k + 1], refs[k + 1..]);
    CostSplit(m, refs[..k], refs[k + 1..]);
    assert refs[..k + 1][..k] == refs[..k];
  }

  /** Listing refs below n without repetition costs at most what is stored below n. */
  lemma {:induction false} CostBound(m: Memories, refs: seq<nat>, n: nat)
    requires forall i, j :: 0 <= i < j < |refs| ==> refs[i] != refs[j]
    requires forall i :: 0 <= i < |refs| ==> refs[i] < n
    ensures CostOf(m, refs) <= CostBelow(m, n)
    decreases n
  {
    if n > 0 {
      if k :| 0 <= k < |refs| && refs[k] == n - 1 {
        CostPullOut(m, refs, k);
        CostBound(m, refs[..k] + refs[k + 1..], n - 1);
      } else {
        CostBound(m, refs, n - 1);
      }
    }
  }

  /** `[r for r in store if r not in hidden]`; the store is filled in ref order. */
  function Visible(m: Memories, hidden: set<nat>, n: nat): seq<nat> {
    if n == 0 then []
    else if n - 1 in m && n - 1 !in hidden then Visible(m, hidden, n - 1) + [n - 1]
    else Visible(m, hidden, n - 1)
  }

  lemma {:induction false} VisibleOnce(m: Memories, hidden: set<nat>, n: nat, r: nat)
    ensures Occurs(Visible(m, hidden, n), r) == Count(r < n && r in m && r !in hidden)
  {
    if n > 0 {
      VisibleOnce(m, hidden, n - 1, r);
    }
  }

  /** Nearest first, older first among equally near. */
  function Ranking(similarity: (string, string) -> real, m: Memories, query: string): (nat, nat) -> bool {
    (a: nat, b: nat) =>
      var x := similarity(query, if a in m then m[a] else "");
      var y := similarity(query, if b in m then m[b] else "");
      x > y || (x == y && a <= b)
  }

  function Ranked(similarity: (string, string) -> real, m: Memories, hidden: set<nat>, n: nat, query: string): seq<nat> {
    Sort(Ranking(similarity, m, query), Visible(m, hidden, n))
  }

  lemma RankedOnce(similarity: (string, string) -> real, m: Memories, hidden: set<nat>, n: nat, query: string,
                   order: seq<nat>)
    requires order == Ranked(similarity, m, hidden, n, query)
    ensures forall r: nat :: r in order <==> r < n && r in m && r !in hidden
    ensures forall i, j :: 0 <= i < j < |order| ==> order[i] != order[j]
  {
    SortSorted(Ranking(similarity, m, query), Visible(m, hidden, n));
    forall r: nat
      ensures r in order <==> r < n && r in m && r !in hidden
      ensures multiset(order)[r] <= 1
    {
      VisibleOnce(m, hidden, n, r);
      OccursInMultiset(Visible(m, hidden, n), r);
      assert r in order <==> multiset(order)[r] > 0;
    }
    forall i, j | 0 <= i < j < |order|
      ensures order[i] != order[j]
    {
      if order[i] == order[j] {
        Multiplicity(order, i, j);
      }
    }
  }

  /** r is nearer to the query than s, or as near and older. */
  ghost predicate Nearer(similarity: (string, string) -> real, m: Memories, query: string, r: nat, s: nat)
    requires r in m && s in m
  {
    similarity(query, m[r]) > similarity(query, m[s]) || (similarity(query, m[r]) == similarity(query, m[s]) && r < s)
  }

  lemma {:induction false} RankedNearest(similarity: (string, string) -> real, m: Memories, hidden: set<nat>, n: nat, query: string,
                                         order: seq<nat>)
    requires order == Ranked(similarity, m, hidden, n, query)
    ensures forall i, j :: 0 <= i < j < |order| ==>
      order[i] in m && order[j] in m && Nearer(similarity, m, query, order[i], order[j])
  {
    RankedOnce(similarity, m, hidden, n, query, order);
    SortSorted(Ranking(similarity, m, query), Visible(m, hidden, n));
    forall i, j | 0 <= i < j < |order|
      ensures order[i] in m && order[j] in m && Nearer(similarity, m, query, order[i], order[j])
    {
      assert order[i] in order && order[j] in order;
      assert Ranking(similarity, m, query)(order[i], order[j]);
    }
  }

  /** Whatever prefix of the ranking is taken: nearest first, and nothing left out is nearer than anything taken. */
  lemma {:induction false} NearestFirst(similarity: (string, string) -> real, m: Memories, hidden: set<nat>, n: nat, query: string,
                                        refs: seq<nat>)
    requires refs <= Ranked(similarity, m, hidden, n, query)
    ensures forall r :: r in refs ==> r in m && r !in hidden
    ensures forall i, j :: 0 <= i < j < |refs| ==> Nearer(similarity, m, query, refs[i], refs[j])
    ensures forall r, s :: r in refs && s !in refs && s < n && s in m && s !in hidden ==> Nearer(similarity, m, query, r, s)
  {
    var order := Ranked(similarity, m, hidden, n, query);
    RankedOnce(similarity, m, hidden, n, query, order);
    RankedNearest(similarity, m, hidden, n, query, order);
    assert forall i :: 0 <= i < |refs| ==> refs[i] == order[i] && refs[i] in order;
    forall r, s | r in refs && s !in refs && s < n && s in m && s !in hidden
      ensures Nearer(similarity, m, query, r, s)
    {
      var i :| 0 <= i < |refs| && refs[i] == r;
      assert s in order;
      var j :| 0 <= j < |order| && order[j] == s;
      assert j >= |refs| || s in refs;
    }
  }

  class Cluster {
    const propagate: bool
    const similarity: (string, string) -> real
    var memories: Memories
    var next: nat
    var tombstones: seq<set<nat>>

    constructor (sessions: nat, propagate: bool, similarity: (string, string) -> real)
      ensures this.propagate == propagate && this.similarity == similarity
      ensures memories == map[] && next == 0 && tombstones == seq(sessions, _ => {})
    {
      this.propagate := propagate;
      this.similarity := similarity;
      memories, next, tombstones := map[], 0, seq(sessions, _ => {});
    }

    method Write(content: string) returns (ref: nat)
      modifies this`memories, this`next
      ensures ref == old(next) && next == old(next) + 1 && memories == old(memories)[ref := content]
    {
      ref := next;
      next := next + 1;
      memories := memories[ref := content];
    }

    method Delete(s: nat, ref: nat)
      requires s < |tombstones|
      modifies this`memories, this`tombstones
      ensures propagate ==> memories == old(memories) - {ref} && tombstones == old(tombstones)
      ensures !propagate ==> memories == old(memories)
      ensures !propagate && ref in old(memories) ==> tombstones == old(tombstones)[s := old(tombstones)[s] + {ref}]
      ensures !propagate && ref !in old(memories) ==> tombstones == old(tombstones)
    {
      if propagate {
        memories := memories - {ref};
      } else if ref in memories {
        tombstones := tombstones[s := tombstones[s] + {ref}];
      }
    }

    /** Refs are handed out in order. */
    ghost predicate Valid()
      reads this`memories, this`next
    {
      forall r :: r in memories ==> r < next
    }

    method Retrieve(s: nat, query: string, budget: nat) returns (refs: seq<nat>)
      requires Valid() && s < |tombstones|
      ensures refs <= Ranked(similarity, memories, tombstones[s], next, query)
      ensures CostOf(memories, refs) <= budget
      ensures CostBelow(memories, next) <= budget ==> refs == Ranked(similarity, memories, tombstones[s], next, query)
    {
      var order := Ranked(similarity, memories, tombstones[s], next, query);
      RankedOnce(similarity, memories, tombstones[s], next, query, order);
      refs := TakeWithin(memories, order, budget);
      if |refs| < |order| {
        assert order[..|refs|] == refs;
        Overflow(memories, order, |refs|, next, budget);
      }
    }
  }

  /** Fills the answer in ranking order and stops at the first memory that no longer fits the budget. */
  method TakeWithin(m: Memories, order: seq<nat>, budget: nat) returns (refs: seq<nat>)
    requires forall r :: r in order ==> r in m
    ensures refs <= order && CostOf(m, refs) <= budget
    ensures |refs| < |order| ==> budget < CostOf(m, refs) + CostAt(m, order[|refs|])
  {
    refs := [];
    var used, i := 0, 0;
    while i < |order| && used + |m[order[i]]| <= budget
      invariant 0 <= i <= |order| && refs == order[..i] && used == CostOf(m, refs) <= budget
    {
      assert order[..i + 1][..i] == order[..i];
      refs := refs + [order[i]];
      used := used + |m[order[i]]|;
      i := i + 1;
    }
  }

  lemma Overflow(m: Memories, order: seq<nat>, i: nat, n: nat, budget: nat)
    requires i < |order| && forall j :: 0 <= j < |order| ==> order[j] < n
    requires forall j, k :: 0 <= j < k < |order| ==> order[j] != order[k]
    requires budget < CostOf(m, order[..i]) + CostAt(m, order[i])
    ensures budget < CostBelow(m, n)
  {
    assert order[..i + 1][..i] == order[..i];
    CostBound(m, order[..i + 1], n);
  }

  // ----- The replay -----

  /** The runner's maps. `owner` is the fact each ref was written for. */
  datatype Index = Index(refToFids: map<nat, set<FactId>>, fidToRef: map<FactId, nat>, ghost owner: map<nat, FactId>)

  ghost predicate Consistent(x: Index) {
    && x.refToFids.Keys == x.owner.Keys
    && (forall r :: r in x.owner ==> x.refToFids[r] == {x.owner[r]})
    && (forall r :: r in x.owner ==> x.owner[r] in x.fidToRef && x.fidToRef[x.owner[r]] == r)
    && (forall f :: f in x.fidToRef ==> x.fidToRef[f] in x.owner && x.owner[x.fidToRef[f]] == f)
  }

  function FidsOf(refToFids: map<nat, set<FactId>>, ref: nat): set<FactId> {
    if ref in refToFids then refToFids[ref] else {}
  }

  /** Facts introduced, facts deleted, and facts deleted from each session, up to some moment. */
  datatype History = History(introduced: set<FactId>, deleted: set<FactId>, deletedFrom: seq<set<FactId>>)

  /** Facts whose memory is gone from the shared store. */
  ghost function Erased(propagate: bool, h: History): set<FactId> {
    if propagate then h.deleted else {}
  }

  /** Facts session s alone has put out of its own sight. */
  ghost function Masked(propagate: bool, h: History, s: nat): set<FactId>
    requires s < |h.deletedFrom|
  {
    if propagate then {} else h.deletedFrom[s]
  }

  ghost predicate Sane(h: History) {
    h.deleted <= h.introduced && forall s :: 0 <= s < |h.deletedFrom| ==> h.deletedFrom[s] <= h.introduced
  }

  ghost predicate StoreTracks(memories: Memories, x: Index, erased: set<FactId>) {
    forall r :: r in memories <==> r in x.owner && x.owner[r] !in erased
  }

  ghost predicate SessionTracks(tombstones: set<nat>, x: Index, masked: set<FactId>) {
    forall r :: r in tombstones <==> r in x.owner && x.owner[r] in masked
  }

  ghost predicate IndexTracks(next: nat, x: Index, h: History) {
    Consistent(x) && Sane(h) && x.fidToRef.Keys == h.introduced && forall r :: r in x.owner ==> r < next
  }

  /** The store holds what was introduced and not erased; each session's tombstones are its own deletes. */
  ghost predicate Tracks(c: Cluster, x: Index, h: History)
    reads c
  {
    && c.Valid() && IndexTracks(c.next, x, h)
    && StoreTracks(c.memories, x, Erased(c.propagate, h))
    && |c.tombstones| == |h.deletedFrom|
    && (forall s :: 0 <= s < |c.tombstones| ==> SessionTracks(c.tombstones[s], x, Masked(c.propagate, h, s)))
  }

  ghost function Record(x: Index, ref: nat, fid: FactId): Index {
    Index(x.refToFids[ref := FidsOf(x.refToFids, ref) + {fid}], x.fidToRef[fid := ref], x.owner[ref := fid])
  }

  lemma RecordTracks(x: Index, ref: nat, fid: FactId, m: Memories, content: string, erased: set<FactId>)
    requires StoreTracks(m, x, erased) && ref !in x.owner && fid !in erased
    ensures StoreTracks(m[ref := content], Record(x, ref, fid), erased)
  {
  }

  lemma RecordMasked(x: Index, ref: nat, fid: FactId, tombstones: set<nat>, masked: set<FactId>)
    requires SessionTracks(tombstones, x, masked) && ref !in x.owner && fid !in masked
    ensures SessionTracks(tombstones, Record(x, ref, fid), masked)
  {
  }

  lemma RecordIndexed(x: Index, next: nat, fid: FactId, h: History)
    requires IndexTracks(next, x, h) && fid !in h.introduced
    ensures next !in x.owner && IndexTracks(next + 1, Record(x, next, fid), h.(introduced := h.introduced + {fid}))
  {
  }

  method WriteFact(c: Cluster, fid: FactId, content: string, x: Index, ghost h: History) returns (x': Index)
    requires Tracks(c, x, h) && fid !in h.introduced
    modifies c`memories, c`next
    ensures Tracks(c, x', h.(introduced := h.introduced + {fid}))
    ensures CostBelow(c.memories, c.next) <= old(CostBelow(c.memories, c.next)) + |content|
  {
    ghost var before, erased := c.memories, Erased(c.propagate, h);
    RecordIndexed(x, c.next, fid, h);
    RecordTracks(x, c.next, fid, c.memories, content, erased);
    var ref := c.Write(content);
    x' := Index(x.refToFids[ref := FidsOf(x.refToFids, ref) + {fid}], x.fidToRef[fid := ref], x.owner[ref := fid]);
    CostSame(before, c.memories, ref);
    forall s | 0 <= s < |c.tombstones|
      ensures SessionTracks(c.tombstones[s], x', Masked(c.propagate, h, s))
    {
      RecordMasked(x, ref, fid, c.tombstones[s], Masked(c.propagate, h, s));
    }
  }

  lemma ElementsSnoc(fids: seq<FactId>, i: nat)
    requires i < |fids|
    ensures Elements(fids[..i + 1]) == Elements(fids[..i]) + {fids[i]}
  {
    assert fids[..i + 1] == fids[..i] + [fids[i]];
  }

  ghost function AfterWrite(h: History, fids: set<FactId>): History {
    h.(introduced := h.introduced + fids)
  }

  lemma WriteOne(h: History, fids: seq<FactId>, i: nat)
    requires i < |fids| && NoRepeats(fids) && Elements(fids) !! h.introduced
    ensures fids[i] !in AfterWrite(h, Elements(fids[..i])).introduced
    ensures AfterWrite(AfterWrite(h, Elements(fids[..i])), {fids[i]}) == AfterWrite(h, Elements(fids[..i + 1]))
  {
    assert fids[i] in Elements(fids);
    ElementsSnoc(fids, i);
    assert h.introduced + Elements(fids[..i]) + {fids[i]} == h.introduced + Elements(fids[..i + 1]);
  }

  method WriteFacts(c: Cluster, turn: Turn, x: Index, ghost h: History) returns (x': Index)
    requires Tracks(c, x, h) && NoRepeats(turn.introduces) && Elements(turn.introduces) !! h.introduced
    modifies c`memories, c`next
    ensures Tracks(c, x', AfterWrite(h, Elements(turn.introduces)))
    ensures CostBelow(c.memories, c.next) <= old(CostBelow(c.memories, c.next)) + Repeated(|turn.content|, |turn.introduces|)
  {
    x' := x;
    ghost var start := CostBelow(c.memories, c.next);
    ghost var now := h;
    assert h == AfterWrite(h, Elements(turn.introduces[..0])) by {
      assert h.introduced + Elements(turn.introduces[..0]) == h.introduced;
    }
    for i := 0 to |turn.introduces|
      invariant now == AfterWrite(h, Elements(turn.introduces[..i])) && Tracks(c, x', now)
      invariant CostBelow(c.memories, c.next) <= start + Repeated(|turn.content|, i)
    {
      WriteOne(h, turn.introduces, i);
      x' := WriteFact(c, turn.introduces[i], turn.content, x', now);
      now := AfterWrite(now, {turn.introduces[i]});
    }
    assert turn.introduces[..|turn.introduces|] == turn.introduces;
  }

  ghost function AfterDelete(h: History, s: nat, fids: set<FactId>): History
    requires s < |h.deletedFrom|
  {
    h.(deleted := h.deleted + fids, deletedFrom := h.deletedFrom[s := h.deletedFrom[s] + fids])
  }

  lemma DeleteNone(h: History, s: nat)
    requires s < |h.deletedFrom|
    ensures AfterDelete(h, s, {}) == h
  {
    assert h.deleted + {} == h.deleted && h.deletedFrom[s] + {} == h.deletedFrom[s];
  }

  lemma DeleteOne(h: History, s: nat, fids: seq<FactId>, i: nat)
    requires s < |h.deletedFrom| && i < |fids|
    ensures AfterDelete(AfterDelete(h, s, Elements(fids[..i])), s, {fids[i]}) == AfterDelete(h, s, Elements(fids[..i + 1]))
  {
    var a, b := Elements(fids[..i]), {fids[i]};
    ElementsSnoc(fids, i);
    assert h.deleted + a + b == h.deleted + (a + b) && h.deletedFrom[s] + a + b == h.deletedFrom[s] + (a + b);
    assert h.deletedFrom[s := h.deletedFrom[s] + a][s := h.deletedFrom[s] + a + b]
        == h.deletedFrom[s := h.deletedFrom[s] + (a + b)];
  }

  method DeleteFact(c: Cluster, s: nat, fid: FactId, x: Index, ghost h: History)
    requires Tracks(c, x, h) && s < |h.deletedFrom| && fid in h.introduced
    modifies c`memories, c`tombstones
    ensures Tracks(c, x, AfterDelete(h, s, {fid}))
    ensures CostBelow(c.memories, c.next) <= old(CostBelow(c.memories, c.next))
  {
    ghost var before, tombs, after := c.memories, c.tombstones, AfterDelete(h, s, {fid});
    if fid in x.fidToRef {
      c.Delete(s, x.fidToRef[fid]);
    }
    CostSame(before, c.memories, c.next);
    assert StoreTracks(c.memories, x, Erased(c.propagate, after));
    forall t | 0 <= t < |c.tombstones|
      ensures SessionTracks(c.tombstones[t], x, Masked(c.propagate, after, t))
    {
      assert SessionTracks(tombs[t], x, Masked(c.propagate, h, t));
    }
  }

  method DeleteFacts(c: Cluster, s: nat, turn: Turn, x: Index, ghost h: History)
    requires Tracks(c, x, h) && s < |h.deletedFrom| && Elements(turn.deletes) <= h.introduced
    modifies c`memories, c`tombstones
    ensures Tracks(c, x, AfterDelete(h, s, Elements(turn.deletes)))
    ensures CostBelow(c.memories, c.next) <= old(CostBelow(c.memories, c.next))
  {
    ghost var now := h;
    DeleteNone(h, s);
    assert Elements(turn.deletes[..0]) == {};
    for i := 0 to |turn.deletes|
      invariant now == AfterDelete(h, s, Elements(turn.deletes[..i])) && Tracks(c, x, now)
      invariant CostBelow(c.memories, c.next) <= old(CostBelow(c.memories, c.next))
    {
      DeleteOne(h, s, turn.deletes, i);
      assert turn.deletes[i] in Elements(turn.deletes);
      DeleteFact(c, s, turn.deletes[i], x, now);
      now := AfterDelete(now, s, {turn.deletes[i]});
    }
    assert turn.deletes[..|turn.deletes|] == turn.deletes;
  }

  ghost function Gone(h: History, s: nat, propagate: bool): set<FactId>
    requires s < |h.deletedFrom|
  {
    if propagate then h.deleted else h.deletedFrom[s]
  }

  /** Maps retrieved refs back to the facts they were written for. */
  method FactsOf(x: Index, refs: seq<nat>) returns (facts: set<FactId>)
    requires Consistent(x) && forall r :: r in refs ==> r in x.owner
    ensures forall f :: f in facts <==> f in x.fidToRef && x.fidToRef[f] in refs
  {
    facts := {};
    for i := 0 to |refs|
      invariant forall f :: f in facts <==> f in x.fidToRef && x.fidToRef[f] in refs[..i]
    {
      assert refs[i] in refs;
      facts := facts + FidsOf(x.refToFids, refs[i]);
      assert refs[..i + 1] == refs[..i] + [refs[i]];
    }
    assert refs[..|refs|] == refs;
  }

  method RetrieveFacts(c: Cluster, s: nat, query: string, budget: nat, x: Index, ghost h: History)
    returns (retrieved: set<FactId>)
    requires Tracks(c, x, h) && s < |h.deletedFrom| && CostBelow(c.memories, c.next) <= budget
    ensures retrieved == h.introduced - Gone(h, s, c.propagate)
  {
    var refs := c.Retrieve(s, query, budget);
    assert forall r: nat :: r in refs <==> r in c.memories && r !in c.tombstones[s] by {
      RankedOnce(c.similarity, c.memories, c.tombstones[s], c.next, query, refs);
    }
    assert SessionTracks(c.tombstones[s], x, Masked(c.propagate, h, s));
    retrieved := FactsOf(x, refs);
  }

  ghost function HistoryAt(ev: seq<Event>, k: nat, sessions: nat): (h: History)
    requires k <= |ev|
    ensures |h.deletedFrom| == sessions
  {
    History(Introduced(ev, k), Deleted(ev, k), seq(sessions, s requires 0 <= s < sessions => DeletedFrom(ev, k, s)))
  }

  lemma HistoryStep(ev: seq<Event>, k: nat, sessions: nat, h: History, turn: Turn)
    requires k < |ev| && ev[k].session < sessions && WellFormed(ev)
    requires h == HistoryAt(ev, k, sessions) && turn == ev[k].turn
    ensures NoRepeats(turn.introduces) && Elements(turn.introduces) !! h.introduced
    ensures Elements(turn.deletes) <= AfterWrite(h, Elements(turn.introduces)).introduced
    ensures AfterDelete(AfterWrite(h, Elements(turn.introduces)), ev[k].session, Elements(turn.deletes))
         == HistoryAt(ev, k + 1, sessions)
  {
    var after := AfterDelete(AfterWrite(h, Elements(turn.introduces)), ev[k].session, Elements(turn.deletes));
    assert WellFormedAt(ev, k);
    assert after.deletedFrom == HistoryAt(ev, k + 1, sessions).deletedFrom by {
      forall s | 0 <= s < sessions
        ensures after.deletedFrom[s] == DeletedFrom(ev, k + 1, s)
      {
      }
    }
  }

  /** One turn, in the source's order: writes, deletes, then the query. */
  method ReplayTurn(c: Cluster, k: nat, x: Index, budget: nat, ghost ev: seq<Event>, e: Event)
    returns (x': Index, answer: seq<(string, set<FactId>)>)
    requires k < |ev| && e == ev[k] && WellFormed(ev) && e.session < |c.tombstones|
    requires Tracks(c, x, HistoryAt(ev, k, |c.tombstones|))
    requires CostBelow(c.memories, c.next) <= Volume(ev, k) && Volume(ev, k + 1) <= budget
    modifies c
    ensures |c.tombstones| == old(|c.tombstones|) && Tracks(c, x', HistoryAt(ev, k + 1, |c.tombstones|))
    ensures CostBelow(c.memories, c.next) <= Volume(ev, k + 1)
    ensures answer == if e.turn.isQuery then [(e.turn.id, Answer(ev, k, c.propagate))] else []
  {
    ghost var n := |c.tombstones|;
    ghost var h, after := HistoryAt(ev, k, n), HistoryAt(ev, k + 1, n);
    ghost var written := AfterWrite(h, Elements(e.turn.introduces));
    HistoryStep(ev, k, n, h, e.turn);
    x' := WriteFacts(c, e.turn, x, h);
    DeleteFacts(c, e.session, e.turn, x', written);
    answer := [];
    if e.turn.isQuery {
      var retrieved := RetrieveFacts(c, e.session, e.turn.content, budget, x', after);
      answer := [(e.turn.id, retrieved)];
    }
  }

  lemma {:induction false} VolumeMonotone(ev: seq<Event>, j: nat, k: nat)
    requires j <= k <= |ev|
    ensures Volume(ev, j) <= Volume(ev, k)
  {
    if j < k {
      VolumeMonotone(ev, j, k - 1);
    }
  }

  lemma CanonicalAll(sessions: Sessions, rows: seq<Row>)
    requires rows == Canonical(sessions)
    ensures forall i :: 0 <= i < |rows| ==> RowOf(sessions, rows[i])
  {
    forall i | 0 <= i < |rows| ensures RowOf(sessions, rows[i]) { CanonicalAt(sessions, rows, i); }
  }

  /** The trace as the replay sees it. */
  function Timeline(sessions: Sessions): seq<Event> {
    CanonicalAll(sessions, Canonical(sessions));
    Events(sessions, Canonical(sessions))
  }

  /** By time, then session, then place in the session. */
  ghost predicate Before(a: Row, b: Row) {
    a.ts < b.ts || (a.ts == b.ts && a.si < b.si) || (a.ts == b.ts && a.si == b.si && a.ti < b.ti)
  }

  ghost predicate IsTurn(sessions: Sessions, si: nat, ti: nat) { si < |sessions| && ti < |sessions[si]| }

  /** The replay takes every turn of every session once, as an event of its session, in that order. */
  lemma TimelineExact(sessions: Sessions, rows: seq<Row>, ev: seq<Event>)
    requires rows == Canonical(sessions) && ev == Timeline(sessions)
    ensures |ev| == |rows|
    ensures forall i :: 0 <= i < |ev| ==>
      && IsTurn(sessions, rows[i].si, rows[i].ti) && ev[i].session == rows[i].si
      && ev[i].turn == sessions[rows[i].si][rows[i].ti] && rows[i].ts == ev[i].turn.timestamp
    ensures forall si: nat, ti: nat :: IsTurn(sessions, si, ti) ==> exists i :: 0 <= i < |rows| && rows[i].si == si && rows[i].ti == ti
    ensures forall i, j :: 0 <= i < j < |rows| ==> Before(rows[i], rows[j])
  {
    CanonicalAll(sessions, rows);
    forall si: nat, ti: nat | IsTurn(sessions, si, ti)
      ensures exists i :: 0 <= i < |rows| && rows[i].si == si && rows[i].ti == ti
    {
      var r := Row(sessions[si][ti].timestamp, si, ti);
      CanonicalRows(sessions, rows, r);
      assert r in multiset(rows);
      var i :| 0 <= i < |rows| && rows[i] == r;
    }
    forall i, j | 0 <= i < j < |rows|
      ensures Before(rows[i], rows[j])
    {
      CanonicalRows(sessions, rows, rows[i]);
      assert RowLeq(rows[i], rows[j]);
      if rows[i] == rows[j] {
        Multiplicity(rows, i, j);
      }
    }
  }

  lemma NothingYet(c: Cluster, ev: seq<Event>, sessions: nat)
    requires c.memories == map[] && c.tombstones == seq(sessions, _ => {})
    ensures Tracks(c, Index(map[], map[], map[]), HistoryAt(ev, 0, sessions))
  {
  }

  /**
   The whole replay answers every query exactly: what was introduced so far, minus what was deleted so far,
   from any session if deletes propagate and from the asking session only if they do not.
   */
  method RunCluster(c: Cluster, sessions: Sessions, budget: nat) returns (perQuery: seq<(string, set<FactId>)>)
    requires c.memories == map[] && c.next == 0 && c.tombstones == seq(|sessions|, _ => {})
    requires WellFormed(Timeline(sessions)) && Volume(Timeline(sessions), |Timeline(sessions)|) <= budget
    modifies c
    ensures perQuery == Answers(Timeline(sessions), |Timeline(sessions)|, c.propagate)
    ensures var ev := Timeline(sessions);
      && |perQuery| == Queries(ev, |ev|)
      && forall k :: 0 <= k < |ev| && ev[k].turn.isQuery ==>
           && Queries(ev, k) < |perQuery|
           && perQuery[Queries(ev, k)].0 == ev[k].turn.id
           && forall f :: f in perQuery[Queries(ev, k)].1 <==> Expected(ev, k, c.propagate, f)
  {
    ghost var ev := Timeline(sessions);
    var rows := OrderedRows(sessions);
    CanonicalAll(sessions, rows);
    var x := Index(map[], map[], map[]);
    NothingYet(c, ev, |sessions|);
    perQuery := [];
    for k := 0 to |rows|
      invariant |c.tombstones| == |sessions| && Tracks(c, x, HistoryAt(ev, k, |sessions|))
      invariant CostBelow(c.memories, c.next) <= Volume(ev, k)
      invariant perQuery == Answers(ev, k, c.propagate)
    {
      VolumeMonotone(ev, k + 1, |ev|);
      var answer;
      x, answer := ReplayTurn(c, k, x, budget, ev, EventOf(sessions, rows[k]));
      perQuery := perQuery + answer;
    }
    EveryQueryIsAnswered(ev, |ev|, c.propagate);
  }

  // ----- Scoring -----

  /** Ground truth at a query's time: facts whose deletion is stamped no later. */
  ghost function DeletedBefore(ev: seq<Event>, ts: int): set<FactId> {
    set f | f in Deleted(ev, |ev|) && StampedBefore(ev, ts, f)
  }

  ghost predicate StampedBefore(ev: seq<Event>, ts: int, f: FactId) {
    exists j :: 0 <= j < |ev| && ev[j].turn.timestamp <= ts && f in ev[j].turn.deletes
  }

  ghost predicate Leaks(ev: seq<Event>, k: nat, retrieved: set<FactId>)
    requires k < |ev|
  {
    retrieved * DeletedBefore(ev, ev[k].turn.timestamp) != {}
  }

  ghost predicate DeletedBy(ev: seq<Event>, k: nat, f: FactId)
    requires k <= |ev|
  {
    exists j :: 0 <= j < k && f in ev[j].turn.deletes
  }

  lemma {:induction false} DeletedIff(ev: seq<Event>, k: nat, f: FactId)
    requires k <= |ev|
    ensures f in Deleted(ev, k) <==> DeletedBy(ev, k, f)
  {
    if k > 0 {
      DeletedIff(ev, k - 1, f);
    }
  }

  lemma {:induction false} DeletedFromIff(ev: seq<Event>, k: nat, s: nat, f: FactId)
    requires k <= |ev|
    ensures f in DeletedFrom(ev, k, s) <==> exists j :: 0 <= j < k && ev[j].session == s && f in ev[j].turn.deletes
  {
    if k > 0 {
      DeletedFromIff(ev, k - 1, s, f);
    }
  }

  lemma {:induction false} DeletedFromDeleted(ev: seq<Event>, k: nat, s: nat)
    requires k <= |ev|
    ensures DeletedFrom(ev, k, s) <= Deleted(ev, k)
  {
    if k > 0 {
      DeletedFromDeleted(ev, k - 1, s);
    }
  }

  lemma {:induction false} DeletedWereIntroduced(ev: seq<Event>, k: nat)
    requires k <= |ev| && WellFormed(ev)
    ensures Deleted(ev, k) <= Introduced(ev, k)
  {
    if k > 0 {
      DeletedWereIntroduced(ev, k - 1);
      assert WellFormedAt(ev, k - 1);
    }
  }

  ghost predicate TimesIncrease(ev: seq<Event>) {
    forall i, j :: 0 <= i < j < |ev| ==> ev[i].turn.timestamp < ev[j].turn.timestamp
  }

  /** On a trace with distinct timestamps time increases along the replay. */
  lemma TimelineIncreases(sessions: Sessions)
    requires DistinctTimes(sessions)
    ensures TimesIncrease(Timeline(sessions))
  {
    var rows, ev := Canonical(sessions), Timeline(sessions);
    forall i, j | 0 <= i < j < |ev|
      ensures ev[i].turn.timestamp < ev[j].turn.timestamp
    {
      CanonicalTimes(sessions, rows, i, j);
      CanonicalAt(sessions, rows, i);
      CanonicalAt(sessions, rows, j);
    }
  }

  lemma {:induction false} StampedSoFar(ev: seq<Event>, k: nat, f: FactId)
    requires k < |ev| && TimesIncrease(ev)
    ensures StampedBefore(ev, ev[k].turn.timestamp, f) <==> DeletedBy(ev, k + 1, f)
    ensures DeletedBy(ev, k + 1, f) ==> DeletedBy(ev, |ev|, f)
  {
    var ts := ev[k].turn.timestamp;
    if StampedBefore(ev, ts, f) {
      var j :| 0 <= j < |ev| && ev[j].turn.timestamp <= ts && f in ev[j].turn.deletes;
      assert !(k < j);
    }
    if DeletedBy(ev, k + 1, f) {
      var j :| 0 <= j < k + 1 && f in ev[j].turn.deletes;
      assert ev[j].turn.timestamp <= ts;
    }
  }

  lemma {:induction false} DeletedSoFar(ev: seq<Event>, k: nat)
    requires k < |ev| && TimesIncrease(ev)
    ensures DeletedBefore(ev, ev[k].turn.timestamp) == Deleted(ev, k + 1)
  {
    forall f
      ensures f in DeletedBefore(ev, ev[k].turn.timestamp) <==> f in Deleted(ev, k + 1)
    {
      DeletedIff(ev, k + 1, f);
      DeletedIff(ev, |ev|, f);
      StampedSoFar(ev, k, f);
    }
  }

  /** f was deleted by event k, but never from the session that event belongs to. */
  ghost predicate DeletedElsewhere(ev: seq<Event>, k: nat, f: FactId)
    requires k < |ev|
  {
    && (exists j :: 0 <= j <= k && f in ev[j].turn.deletes)
    && (forall i :: 0 <= i <= k && f in ev[i].turn.deletes ==> ev[i].session != ev[k].session)
  }

  lemma DeletedElsewhereIff(ev: seq<Event>, k: nat, f: FactId)
    requires k < |ev|
    ensures DeletedElsewhere(ev, k, f) <==> f in Deleted(ev, k + 1) && f !in DeletedFrom(ev, k + 1, ev[k].session)
  {
    DeletedIff(ev, k + 1, f);
    DeletedFromIff(ev, k + 1, ev[k].session, f);
  }

  /**
   The propagation map, exactly. With propagating deletes no query ever leaks. With session-local ones a query
   leaks precisely when some fact was deleted by then, but never from the asking session.
   */
  lemma LeakIff(ev: seq<Event>, k: nat, propagate: bool)
    requires k < |ev| && WellFormed(ev) && TimesIncrease(ev)
    ensures Leaks(ev, k, Answer(ev, k, propagate)) <==> !propagate && exists f :: DeletedElsewhere(ev, k, f)
  {
    var all, own, seen := Deleted(ev, k + 1), DeletedFrom(ev, k + 1, ev[k].session), Introduced(ev, k + 1);
    DeletedSoFar(ev, k);
    DeletedWereIntroduced(ev, k + 1);
    assert (seen - own) * all == all - own;
    assert (seen - all) * all == {};
    if Leaks(ev, k, Answer(ev, k, propagate)) {
      var f :| f in all - own;
      DeletedElsewhereIff(ev, k, f);
    }
    if !propagate && exists f :: DeletedElsewhere(ev, k, f) {
      var f :| DeletedElsewhere(ev, k, f);
      DeletedElsewhereIff(ev, k, f);
      assert f in all - own;
    }
  }

  lemma {:induction false} AnsweredBy(ev: seq<Event>, n: nat, propagate: bool, i: nat) returns (k: nat)
    requires n <= |ev| && i < |Answers(ev, n, propagate)|
    ensures k < n && ev[k].turn.isQuery && Answers(ev, n, propagate)[i] == (ev[k].turn.id, Answer(ev, k, propagate))
  {
    if i < |Answers(ev, n - 1, propagate)| {
      k := AnsweredBy(ev, n - 1, propagate, i);
    } else {
      k := n - 1;
    }
  }

  /** The measured map of the propagating cluster: on every trace no query leaks and every survivor is recalled. */
  lemma PropagatingIsClean(sessions: Sessions, i: nat, targets: set<FactId>)
    requires WellFormed(Timeline(sessions)) && DistinctTimes(sessions)
    requires i < |Answers(Timeline(sessions), |Timeline(sessions)|, true)|
    ensures var ev := Timeline(sessions); var (id, retrieved) := Answers(ev, |ev|, true)[i];
      exists k :: 0 <= k < |ev| && ev[k].turn.isQuery && ev[k].turn.id == id
                  && retrieved == Answer(ev, k, true) && !Leaks(ev, k, retrieved)
                  && (targets != {} && targets <= Introduced(ev, k + 1) - Deleted(ev, k + 1) ==> Recall(retrieved, targets) == 1.0)
  {
    var ev := Timeline(sessions);
    var k := AnsweredBy(ev, |ev|, true, i);
    TimelineIncreases(sessions);
    LeakIff(ev, k, true);
    if targets != {} && targets <= Introduced(ev, k + 1) - Deleted(ev, k + 1) {
      SurvivorRecall(ev, k, true, targets);
    }
  }

  /** Recall is the share of the targets retrieved: one exactly for all of them, nothing exactly for none. */
  lemma RecallMeans(retrieved: set<FactId>, targets: set<FactId>)
    requires targets != {}
    ensures Recall(retrieved, targets) * |targets| as real == |targets| as real - |targets - retrieved| as real
    ensures Recall(retrieved, targets) == 1.0 <==> targets <= retrieved
    ensures Recall(retrieved, targets) == 0.0 <==> targets !! retrieved
  {
    var hit, missed := retrieved * targets, targets - retrieved;
    assert targets == hit + missed && hit !! missed;
    assert |targets| == |hit| + |missed|;
    assert missed == {} <==> targets <= retrieved;
    assert hit == {} <==> targets !! retrieved;
    Share(|hit| as real, |targets| as real);
  }

  lemma Share(x: real, n: real)
    requires n > 0.0
    ensures x / n * n == x && (x / n == 1.0 <==> x == n) && (x / n == 0.0 <==> x == 0.0)
  {
    assert x / n * n == x;
  }

  function Recall(retrieved: set<FactId>, targets: set<FactId>): real
    requires targets != {}
  {
    |retrieved * targets| as real / |targets| as real
  }

  /** Survivors are always recalled, by either kind of cluster and whatever sessions are involved. */
  lemma SurvivorRecall(ev: seq<Event>, k: nat, propagate: bool, targets: set<FactId>)
    requires k < |ev| && targets != {} && targets <= Introduced(ev, k + 1) - Deleted(ev, k + 1)
    ensures Recall(Answer(ev, k, propagate), targets) == 1.0
  {
    SurvivorsAnswered(ev, k, propagate, targets);
  }

  lemma SurvivorsAnswered(ev: seq<Event>, k: nat, propagate: bool, targets: set<FactId>)
    requires k < |ev| && targets <= Introduced(ev, k + 1) - Deleted(ev, k + 1)
    ensures Answer(ev, k, propagate) * targets == targets
  {
    DeletedFromDeleted(ev, k + 1, ev[k].session);
    var answer, hidden := Answer(ev, k, propagate), Hidden(ev, k + 1, ev[k].session, propagate);
    assert hidden <= Deleted(ev, k + 1);
    assert targets <= answer;
  }
}
