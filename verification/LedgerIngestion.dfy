/**
 Ledger ingestion: decisions are posted one by one and remembered in a manifest, because the server does not
 deduplicate them; outcomes and reviews are posted in chunks.

 The server is the record of what it accepted, and any post may fail. The parts of a row that only travel in
 the payload are left out.
 */
module LedgerIngestion {
  import opened Wrappers
  import opened Slugs

  datatype Event = Event(ref: string, detail: string)

  datatype Row = Row(ledger: LedgerRow, outcome: Option<string>, review: Option<string>)

  predicate Referable(rows: seq<Row>) { forall r :: r in rows ==> MakeRef(r.ledger).Success? }

  function RefOf(row: Row): string
    requires MakeRef(row.ledger).Success?
  {
    MakeRef(row.ledger).value
  }

  function Refs(rows: seq<Row>): (refs: seq<string>)
    requires Referable(rows)
    ensures |refs| == |rows|
  {
    seq(|rows|, i requires 0 <= i < |rows| => assert rows[i] in rows; RefOf(rows[i]))
  }

  function Elements(refs: seq<string>): set<string> { set r | r in refs }

  /** Refs not yet in the manifest; a ref the ledger repeats stays repeated. */
  function NewRefs(refs: seq<string>, manifest: set<string>): seq<string> {
    if refs == [] then []
    else
      var rest, last := NewRefs(refs[..|refs| - 1], manifest), refs[|refs| - 1];
      if last in manifest then rest else rest + [last]
  }

  function Outcomes(rows: seq<Row>): seq<Event>
    requires Referable(rows)
  {
    if rows == [] then []
    else
      assert Referable(rows[..|rows| - 1]) && rows[|rows| - 1] in rows;
      var rest, last := Outcomes(rows[..|rows| - 1]), rows[|rows| - 1];
      if last.outcome.Some? then rest + [Event(RefOf(last), last.outcome.value)] else rest
  }

  function Reviews(rows: seq<Row>): seq<Event>
    requires Referable(rows)
  {
    if rows == [] then []
    else
      assert Referable(rows[..|rows| - 1]) && rows[|rows| - 1] in rows;
      var rest, last := Reviews(rows[..|rows| - 1]), rows[|rows| - 1];
      if last.review.Some? then rest + [Event(RefOf(last), last.review.value)] else rest
  }

  // ----- Chunks -----

  function Flatten<T>(chunks: seq<seq<T>>): seq<T> {
    if chunks == [] then [] else Flatten(chunks[..|chunks| - 1]) + chunks[|chunks| - 1]
  }

  /** Full chunks of n, then what is left over. */
  method Chunks<T>(items: seq<T>, n: nat) returns (chunks: seq<seq<T>>)
    requires n > 0
    ensures Flatten(chunks) == items
    ensures forall i :: 0 <= i < |chunks| ==> 0 < |chunks[i]| <= n && (i < |chunks| - 1 ==> |chunks[i]| == n)
  {
    chunks := [];
    var i := 0;
    while i < |items|
      invariant 0 <= i && Flatten(chunks) == items[..if i < |items| then i else |items|]
      invariant forall k :: 0 <= k < |chunks| ==> 0 < |chunks[k]| <= n
      invariant forall k :: 0 <= k < |chunks| && (i < |items| || k < |chunks| - 1) ==> |chunks[k]| == n
      decreases |items| - i
    {
      var end := if i + n < |items| then i + n else |items|;
      assert (chunks + [items[i..end]])[..|chunks|] == chunks;
      chunks := chunks + [items[i..end]];
      assert items[..i] + items[i..end] == items[..end];
      i := i + n;
    }
    assert items[..|items|] == items;
  }

  lemma {:induction false} FlattenPrefix<T>(chunks: seq<seq<T>>, k: nat)
    requires k <= |chunks|
    ensures Flatten(chunks[..k]) <= Flatten(chunks)
  {
    if k == |chunks| {
      assert chunks[..k] == chunks;
    } else {
      var front := chunks[..|chunks| - 1];
      FlattenPrefix(front, k);
      assert front[..k] == chunks[..k];
    }
  }

  lemma {:induction false} FullChunks<T>(chunks: seq<seq<T>>, k: nat, n: nat)
    requires k <= |chunks| && forall i :: 0 <= i < k ==> |chunks[i]| == n
    ensures |Flatten(chunks[..k])| == n * k
  {
    if k > 0 {
      FullChunks(chunks, k - 1, n);
      assert chunks[..k][..k - 1] == chunks[..k - 1];
      assert n * k == n * (k - 1) + n;
    }
  }

  /** Only whole leading chunks of n have been added. */
  ghost predicate StoppedAfterChunks<T>(before: seq<T>, after: seq<T>, items: seq<T>, n: nat) {
    exists k: nat :: n * k < |items| && after == before + items[..n * k]
  }

  lemma StoppedAt<T>(before: seq<T>, after: seq<T>, items: seq<T>, n: nat, chunks: seq<seq<T>>, k: nat)
    requires Flatten(chunks) == items && k < |chunks| && after == before + Flatten(chunks[..k])
    requires forall i :: 0 <= i < |chunks| ==> 0 < |chunks[i]| <= n && (i < |chunks| - 1 ==> |chunks[i]| == n)
    ensures StoppedAfterChunks(before, after, items, n)
  {
    FullChunks(chunks, k, n);
    FlattenPrefix(chunks, k);
    FlattenPrefix(chunks, k + 1);
    assert chunks[..k + 1][..k] == chunks[..k];
    assert Flatten(chunks[..k]) == items[..n * k];
  }

  datatype Exit = Done | DryRun | BadRow | HttpError

  /** What the server has accepted and what the manifest file says. */
  class Ingestion {
    const failsAt: Option<nat>
    var requests: nat
    var posted: seq<string>
    var outcomes: seq<Event>
    var reviews: seq<Event>
    var manifest: set<string>

    constructor (failsAt: Option<nat>)
      ensures posted == [] && outcomes == reviews == [] && manifest == {} && this.failsAt == failsAt
    {
      posted, outcomes, reviews, manifest, requests, this.failsAt := [], [], [], {}, 0, failsAt;
    }

    method Request() returns (ok: bool)
      modifies this`requests
      ensures failsAt.None? ==> ok
    {
      requests := requests + 1;
      ok := failsAt != Some(requests);
    }

    method PostDecisions(refs: seq<string>) returns (ok: bool)
      modifies this`requests, this`posted
      ensures failsAt.None? ==> ok
      ensures ok ==> posted == old(posted) + refs
      ensures !ok ==> exists k :: 0 <= k < |refs| && posted == old(posted) + refs[..k]
    {
      for k := 0 to |refs|
        invariant posted == old(posted) + refs[..k]
      {
        ok := Request();
        if !ok {
          return;
        }
        posted := posted + [refs[k]];
        assert refs[..k + 1] == refs[..k] + [refs[k]];
      }
      assert refs[..|refs|] == refs;
      ok := true;
    }

    method PostOutcomes(events: seq<Event>) returns (ok: bool)
      modifies this`requests, this`outcomes
      ensures failsAt.None? ==> ok
      ensures ok ==> outcomes == old(outcomes) + events
      ensures !ok ==> StoppedAfterChunks(old(outcomes), outcomes, events, 8)
    {
      var chunks := Chunks(events, 8);
      for k := 0 to |chunks|
        invariant outcomes == old(outcomes) + Flatten(chunks[..k])
      {
        ok := Request();
        if !ok {
          StoppedAt(old(outcomes), outcomes, events, 8, chunks, k);
          return;
        }
        outcomes := outcomes + chunks[k];
        assert chunks[..k + 1][..k] == chunks[..k];
      }
      assert chunks[..|chunks|] == chunks;
      ok := true;
    }

    method PostReviews(events: seq<Event>) returns (ok: bool)
      modifies this`requests, this`reviews
      ensures failsAt.None? ==> ok
      ensures ok ==> reviews == old(reviews) + events
      ensures !ok ==> StoppedAfterChunks(old(reviews), reviews, events, 20)
    {
      var chunks := Chunks(events, 20);
      for k := 0 to |chunks|
        invariant reviews == old(reviews) + Flatten(chunks[..k])
      {
        ok := Request();
        if !ok {
          StoppedAt(old(reviews), reviews, events, 20, chunks, k);
          return;
        }
        reviews := reviews + chunks[k];
        assert chunks[..k + 1][..k] == chunks[..k];
      }
      assert chunks[..|chunks|] == chunks;
      ok := true;
    }

    /** The mapping loop: all refs, and those the manifest does not know. */
    method MapRows(rows: seq<Row>) returns (r: Option<(seq<string>, seq<string>)>)
      ensures r.Some? <==> Referable(rows)
      ensures r.Some? ==> r.value.0 == Refs(rows) && r.value.1 == NewRefs(Refs(rows), manifest)
    {
      var refs, unposted := [], [];
      for i := 0 to |rows|
        invariant Referable(rows[..i]) && refs == Refs(rows[..i]) && unposted == NewRefs(refs, manifest)
      {
        var ref := MakeRef(rows[i].ledger);
        if ref.Failure? {
          assert rows[i] in rows;
          return None;
        }
        assert rows[..i + 1] == rows[..i] + [rows[i]];
        assert (refs + [ref.value])[..i] == refs;
        refs := refs + [ref.value];
        if ref.value !in manifest {
          unposted := unposted + [ref.value];
        }
      }
      assert rows[..|rows|] == rows;
      r := Some((refs, unposted));
    }

    method Post(rows: seq<Row>, ghost refs: seq<string>, unposted: seq<string>) returns (exit: Exit)
      requires Referable(rows) && refs == Refs(rows) && unposted == NewRefs(refs, manifest)
      modifies this
      ensures exit in {Done, HttpError} && (failsAt.None? ==> exit == Done)
      ensures exit == Done ==>
        && Books(posted, manifest) == AfterRun(Books(old(posted), old(manifest)), refs)
        && outcomes == old(outcomes) + Outcomes(rows) && reviews == old(reviews) + Reviews(rows)
      ensures exit == HttpError ==>
        || (BrokeOff(Books(old(posted), old(manifest)), Books(posted, manifest), refs)
            && outcomes == old(outcomes) && reviews == old(reviews))
        || (Books(posted, manifest) == AfterRun(Books(old(posted), old(manifest)), refs)
            && StoppedAfterChunks(old(outcomes), outcomes, Outcomes(rows), 8) && reviews == old(reviews))
        || (Books(posted, manifest) == AfterRun(Books(old(posted), old(manifest)), refs)
            && outcomes == old(outcomes) + Outcomes(rows) && StoppedAfterChunks(old(reviews), reviews, Reviews(rows), 20))
    {
      var ok := PostDecisions(unposted);
      if !ok {
        ghost var k :| 0 <= k < |unposted| && posted == old(posted) + unposted[..k];
        ghost var n := BreakPoint(refs, manifest, k);
        assert Books(posted, manifest) == AfterFailure(Books(old(posted), old(manifest)), refs, n);
        return HttpError;
      }
      NewElements(refs, manifest);
      manifest := manifest + Elements(unposted);
      ok := PostOutcomes(Outcomes(rows));
      if !ok {
        return HttpError;
      }
      ok := PostReviews(Reviews(rows));
      exit := if ok then Done else HttpError;
    }

    /**
     One run. Every row is mapped before anything is posted; the manifest is saved once all decisions are in,
     even if a later stage then fails.
     */
    method Run(rows: seq<Row>, dryRun: bool) returns (exit: Exit)
      modifies this
      ensures exit == BadRow <==> !Referable(rows)
      ensures exit == DryRun <==> Referable(rows) && dryRun
      ensures exit in {BadRow, DryRun} ==>
        posted == old(posted) && manifest == old(manifest) && outcomes == old(outcomes) && reviews == old(reviews)
      ensures exit == Done ==>
        && Books(posted, manifest) == AfterRun(Books(old(posted), old(manifest)), Refs(rows))
        && outcomes == old(outcomes) + Outcomes(rows) && reviews == old(reviews) + Reviews(rows)
      ensures exit == HttpError ==>
        || (BrokeOff(Books(old(posted), old(manifest)), Books(posted, manifest), Refs(rows))
            && outcomes == old(outcomes) && reviews == old(reviews))
        || (Books(posted, manifest) == AfterRun(Books(old(posted), old(manifest)), Refs(rows))
            && StoppedAfterChunks(old(outcomes), outcomes, Outcomes(rows), 8) && reviews == old(reviews))
        || (Books(posted, manifest) == AfterRun(Books(old(posted), old(manifest)), Refs(rows))
            && outcomes == old(outcomes) + Outcomes(rows) && StoppedAfterChunks(old(reviews), reviews, Reviews(rows), 20))
      ensures failsAt.None? ==> exit != HttpError
    {
      var mapped := MapRows(rows);
      if mapped.None? {
        return BadRow;
      }
      if dryRun {
        return DryRun;
      }
      exit := Post(rows, mapped.value.0, mapped.value.1);
    }
  }

  // ----- Decisions over many runs -----

  datatype Books = Books(posted: seq<string>, manifest: set<string>)

  function AfterRun(b: Books, refs: seq<string>): Books {
    Books(b.posted + NewRefs(refs, b.manifest), b.manifest + Elements(refs))
  }

  /** The run broke off at row n of the ledger and saved nothing: the new refs before that row have been posted. */
  function AfterFailure(b: Books, refs: seq<string>, n: nat): Books
    requires n <= |refs|
  {
    Books(b.posted + NewRefs(refs[..n], b.manifest), b.manifest)
  }

  ghost predicate BrokeOff(b: Books, b': Books, refs: seq<string>) {
    exists n :: 0 <= n < |refs| && refs[n] !in b.manifest && b' == AfterFailure(b, refs, n)
  }

  /** The row whose post was the k-th. */
  lemma {:induction false} BreakPoint(refs: seq<string>, manifest: set<string>, k: nat) returns (n: nat)
    requires k < |NewRefs(refs, manifest)|
    ensures n < |refs| && refs[n] !in manifest && NewRefs(refs[..n], manifest) == NewRefs(refs, manifest)[..k]
  {
    var front := refs[..|refs| - 1];
    if k < |NewRefs(front, manifest)| {
      n := BreakPoint(front, manifest, k);
      assert front[..n] == refs[..n];
    } else {
      n := |refs| - 1;
    }
  }

  function Occurrences(refs: seq<string>, r: string): nat { multiset(refs)[r] }

  lemma {:induction false} NewRefsCount(refs: seq<string>, manifest: set<string>, r: string)
    ensures Occurrences(NewRefs(refs, manifest), r) == if r in manifest then 0 else Occurrences(refs, r)
  {
    if refs != [] {
      NewRefsCount(refs[..|refs| - 1], manifest, r);
      assert refs == refs[..|refs| - 1] + [refs[|refs| - 1]];
    }
  }

  lemma NewElements(refs: seq<string>, manifest: set<string>)
    ensures manifest + Elements(NewRefs(refs, manifest)) == manifest + Elements(refs)
  {
    forall r
      ensures r in NewRefs(refs, manifest) <==> r in refs && r !in manifest
    {
      NewRefsCount(refs, manifest, r);
      assert r in NewRefs(refs, manifest) <==> Occurrences(NewRefs(refs, manifest), r) > 0;
      assert r in refs <==> Occurrences(refs, r) > 0;
    }
  }

  /** A run as far as decisions go: all of its ledger, or broken off at one of its rows. */
  datatype Attempt = Completed(refs: seq<string>) | BrokenOff(refs: seq<string>, row: nat)

  predicate Possible(a: Attempt) { a.BrokenOff? ==> a.row <= |a.refs| }

  function AfterAttempt(b: Books, a: Attempt): Books
    requires Possible(a)
  {
    match a
    case Completed(refs) => AfterRun(b, refs)
    case BrokenOff(refs, n) => AfterFailure(b, refs, n)
  }

  predicate AllPossible(attempts: seq<Attempt>) { forall i :: 0 <= i < |attempts| ==> Possible(attempts[i]) }

  function RunAll(b: Books, attempts: seq<Attempt>): Books
    requires AllPossible(attempts)
    decreases |attempts|
  {
    if attempts == [] then b else RunAll(AfterAttempt(b, attempts[0]), attempts[1..])
  }

  /** How often r stands before the break of each broken-off run and in the first completed ledger that lists it. */
  function Listings(attempts: seq<Attempt>, r: string): nat
    requires AllPossible(attempts)
  {
    if attempts == [] then 0
    else
      match attempts[0]
      case Completed(refs) => if r in refs then Occurrences(refs, r) else Listings(attempts[1..], r)
      case BrokenOff(refs, n) => Occurrences(refs[..n], r) + Listings(attempts[1..], r)
  }

  lemma AttemptCounts(b: Books, a: Attempt, r: string)
    requires Possible(a)
    ensures Occurrences(AfterAttempt(b, a).posted, r) == Occurrences(b.posted, r)
      + (if r in b.manifest then 0 else Occurrences(if a.Completed? then a.refs else a.refs[..a.row], r))
    ensures r in AfterAttempt(b, a).manifest <==> r in b.manifest || (a.Completed? && r in a.refs)
  {
    NewRefsCount(if a.Completed? then a.refs else a.refs[..a.row], b.manifest, r);
  }

  /** Over any history of completed and broken-off runs a decision is posted exactly as often as its listings say. */
  lemma {:induction false} PostsExactly(b: Books, attempts: seq<Attempt>, r: string)
    requires AllPossible(attempts)
    ensures Occurrences(RunAll(b, attempts).posted, r)
         == Occurrences(b.posted, r) + (if r in b.manifest then 0 else Listings(attempts, r))
    decreases |attempts|
  {
    if attempts != [] {
      AttemptCounts(b, attempts[0], r);
      PostsExactly(AfterAttempt(b, attempts[0]), attempts[1..], r);
    }
  }

  /** From an empty start, no decision is ever posted twice exactly when no ref has two listings. */
  lemma AtMostOnceIff(attempts: seq<Attempt>, posted: seq<string>)
    requires AllPossible(attempts) && posted == RunAll(Books([], {}), attempts).posted
    ensures AtMostOnce(posted) <==> ListedOnce(attempts)
  {
    forall r
      ensures Occurrences(posted, r) <= 1 <==> HasOneListing(attempts, r)
    {
      PostsExactly(Books([], {}), attempts, r);
    }
  }

  ghost predicate AtMostOnce(posted: seq<string>) { forall r :: Occurrences(posted, r) <= 1 }

  predicate HasOneListing(attempts: seq<Attempt>, r: string)
    requires AllPossible(attempts)
  {
    Listings(attempts, r) <= 1
  }

  ghost predicate ListedOnce(attempts: seq<Attempt>)
    requires AllPossible(attempts)
  {
    forall r :: HasOneListing(attempts, r)
  }

  /** Completed runs on ledgers without repetitions meet the condition, however often they are run. */
  lemma {:induction false} DistinctLedgers(attempts: seq<Attempt>, r: string)
    requires forall i :: 0 <= i < |attempts| ==> attempts[i].Completed? && Occurrences(attempts[i].refs, r) <= 1
    ensures Listings(attempts, r) <= 1
  {
    if attempts != [] {
      DistinctLedgers(attempts[1..], r);
    }
  }

  /** After a run that broke off, running its ledger again posts everything before the break a second time. */
  lemma RerunAfterFailure(refs: seq<string>, n: nat, rest: seq<Attempt>, r: string)
    requires n <= |refs| && AllPossible(rest)
    ensures AllPossible([BrokenOff(refs, n), Completed(refs)] + rest)
    ensures r in refs ==> Listings([BrokenOff(refs, n), Completed(refs)] + rest, r) == Occurrences(refs[..n], r) + Occurrences(refs, r)
  {
    var attempts := [BrokenOff(refs, n), Completed(refs)] + rest;
    assert attempts[1..] == [Completed(refs)] + rest;
  }

  /** Running only the rows from the break on posts each of them as if nothing had happened. */
  lemma ResumeAtBreak(refs: seq<string>, n: nat, r: string)
    requires n <= |refs|
    ensures Listings([BrokenOff(refs, n), Completed(refs[n..])], r) == Listings([Completed(refs)], r)
  {
    var attempts := [BrokenOff(refs, n), Completed(refs[n..])];
    assert attempts[1..] == [Completed(refs[n..])] && attempts[1..][1..] == [];
    assert Listings(attempts[1..], r) == Occurrences(refs[n..], r);
    assert refs == refs[..n] + refs[n..];
  }

  // ----- Which events a ledger lists -----

  /** One event per resolved row, in ledger order, under the row's ref: each row adds its own and no other. */
  lemma {:induction false} OutcomesOf(rows: seq<Row>, row: Row)
    requires Referable(rows + [row])
    ensures Referable(rows) && MakeRef(row.ledger).Success? && Outcomes([]) == []
    ensures Outcomes(rows + [row])
         == Outcomes(rows) + (if row.outcome == None then [] else [Event(MakeRef(row.ledger).value, row.outcome.value)])
  {
    assert (rows + [row])[..|rows|] == rows && row in rows + [row];
    assert forall r :: r in rows ==> r in rows + [row];
  }

  /** Likewise one event per reviewed row. */
  lemma {:induction false} ReviewsOf(rows: seq<Row>, row: Row)
    requires Referable(rows + [row])
    ensures Referable(rows) && MakeRef(row.ledger).Success? && Reviews([]) == []
    ensures Reviews(rows + [row])
         == Reviews(rows) + (if row.review == None then [] else [Event(MakeRef(row.ledger).value, row.review.value)])
  {
    assert (rows + [row])[..|rows|] == rows && row in rows + [row];
    assert forall r :: r in rows ==> r in rows + [row];
  }

  /** The decisions of a ledger: its refs in order, and of them those the manifest does not hold. */
  lemma {:induction false} DecisionsOf(rows: seq<Row>, row: Row, manifest: set<string>)
    requires Referable(rows + [row])
    ensures Referable(rows) && MakeRef(row.ledger).Success? && Refs([]) == [] && NewRefs([], manifest) == []
    ensures Refs(rows + [row]) == Refs(rows) + [MakeRef(row.ledger).value]
    ensures NewRefs(Refs(rows + [row]), manifest)
         == NewRefs(Refs(rows), manifest) + (if MakeRef(row.ledger).value in manifest then [] else [MakeRef(row.ledger).value])
  {
    assert row in rows + [row] && forall r :: r in rows ==> r in rows + [row];
    var refs, all := Refs(rows), Refs(rows + [row]);
    assert all == refs + [MakeRef(row.ledger).value];
    assert all[..|refs|] == refs;
  }

  // ----- Where a run can break off -----

  lemma {:induction false} NewRefsPrefix(refs: seq<string>, manifest: set<string>, n: nat)
    requires n <= |refs|
    ensures NewRefs(refs[..n], manifest) <= NewRefs(refs, manifest)
    ensures n < |refs| && refs[n] !in manifest ==> |NewRefs(refs[..n], manifest)| < |NewRefs(refs, manifest)|
  {
    if n == |refs| {
      assert refs[..n] == refs;
    } else {
      var front := refs[..|refs| - 1];
      assert front[..n] == refs[..n];
      NewRefsPrefix(front, manifest, n);
      if n == |front| {
        assert refs[..n] == front;
      }
    }
  }

  /** A run has broken off exactly when the manifest is as it was and some of the new refs, not all, were posted. */
  lemma BrokeOffIff(b: Books, b': Books, refs: seq<string>)
    ensures BrokeOff(b, b', refs) <==>
      && b'.manifest == b.manifest
      && exists k :: 0 <= k < |NewRefs(refs, b.manifest)| && b'.posted == b.posted + NewRefs(refs, b.manifest)[..k]
  {
    var all := NewRefs(refs, b.manifest);
    if n :| 0 <= n < |refs| && refs[n] !in b.manifest && b' == AfterFailure(b, refs, n) {
      NewRefsPrefix(refs, b.manifest, n);
      assert all[..|NewRefs(refs[..n], b.manifest)|] == NewRefs(refs[..n], b.manifest);
    }
    if b'.manifest == b.manifest && exists k :: 0 <= k < |all| && b'.posted == b.posted + all[..k] {
      var k :| 0 <= k < |all| && b'.posted == b.posted + all[..k];
      var n := BreakPoint(refs, b.manifest, k);
      assert b' == AfterFailure(b, refs, n);
    }
  }

  /** The bulk stage for outcomes has stopped exactly when a proper prefix was added whose length is a multiple of eight. */
  lemma OutcomesStopped(before: seq<Event>, after: seq<Event>, items: seq<Event>)
    ensures StoppedAfterChunks(before, after, items, 8) <==>
      exists m :: 0 <= m < |items| && m % 8 == 0 && after == before + items[..m]
  {
    if m :| 0 <= m < |items| && m % 8 == 0 && after == before + items[..m] {
      var k: nat := m / 8;
      assert 8 * k == m;
    }
  }

  /** And that for reviews of twenty. */
  lemma ReviewsStopped(before: seq<Event>, after: seq<Event>, items: seq<Event>)
    ensures StoppedAfterChunks(before, after, items, 20) <==>
      exists m :: 0 <= m < |items| && m % 20 == 0 && after == before + items[..m]
  {
    if m :| 0 <= m < |items| && m % 20 == 0 && after == before + items[..m] {
      var k: nat := m / 20;
      assert 20 * k == m;
    }
  }
}
