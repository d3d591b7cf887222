/**
 The `continues` ceremony: four preconditions, then one record appended to the identity store. The anti-fork
 precondition reads the store's view, in which the latest record of a successor key hides its earlier ones.

 A signature is the pair of signing key and message (an ideal signature). Times and references recorded with an
 edge are left out.
 */
module ContinuesCeremony {
  import opened Wrappers

  datatype Record = Record(tenant: string, subject: string, target: string, tier: string)

  /** The loader skips a record with an empty part. */
  predicate WellFormed(r: Record) { r.subject != [] && r.target != [] && r.tier != [] }

  datatype Edge = Edge(target: string, tier: string)

  type Edges = map<string, Edge>

  /** `load_continues_edges`: a later record for the same subject wins. */
  function View(log: seq<Record>, tenant: string): Edges {
    if log == [] then map[]
    else
      var rest, r := View(log[..|log| - 1], tenant), log[|log| - 1];
      if r.tenant == tenant && WellFormed(r) then rest[r.subject := Edge(r.target, r.tier)] else rest
  }

  lemma ViewSnoc(log: seq<Record>, r: Record, tenant: string)
    ensures View(log + [r], tenant) ==
      if r.tenant == tenant && WellFormed(r) then View(log, tenant)[r.subject := Edge(r.target, r.tier)] else View(log, tenant)
  {
    assert (log + [r])[..|log|] == log;
  }

  predicate Continued(edges: Edges, target: string) {
    exists s :: s in edges && edges[s].target == target
  }

  // ----- The ceremony -----

  datatype Signature = Signature(key: string, message: string)

  /** What PostgREST answers: nothing on a read error, else each agent's revocation time. */
  type Registry = Option<map<string, Option<string>>>

  datatype Request = Request(tenant: string, bKey: string, nonce: string, bSig: Signature, aAgent: string,
                             aCert: string, tier: string)

  function CeremonyMessage(bKey: string, aCert: string, nonce: string): string {
    "cgr-continues.v1|b=" + bKey + "|a_cert=" + aCert + "|nonce=" + nonce
  }

  predicate ControlOfB(q: Request) {
    q.bSig == Signature(q.bKey, CeremonyMessage(q.bKey, q.aCert, q.nonce))
  }

  predicate ARevoked(registry: Registry, agent: string) {
    registry.Some? && agent in registry.value && registry.value[agent].Some?
  }

  predicate TierKnown(tier: string) { tier in {"custody_record", "issuer_records", "operator_verification"} }

  predicate AntiFork(log: seq<Record>, q: Request) { !Continued(View(log, q.tenant), q.aCert) }

  predicate Admissible(log: seq<Record>, q: Request, registry: Registry) {
    ControlOfB(q) && ARevoked(registry, q.aAgent) && AntiFork(log, q) && TierKnown(q.tier)
  }

  function RecordOf(q: Request): Record { Record(q.tenant, q.bKey, q.aCert, q.tier) }

  class IdentityStore {
    var log: seq<Record>

    constructor ()
      ensures log == []
    {
      log := [];
    }

    method LoadContinuesEdges(tenant: string) returns (edges: Edges)
      ensures edges == View(log, tenant)
    {
      edges := map[];
      for i := 0 to |log|
        invariant edges == View(log[..i], tenant)
      {
        var r := log[i];
        if r.tenant == tenant && WellFormed(r) {
          edges := edges[r.subject := Edge(r.target, r.tier)];
        }
        assert log[..i + 1] == log[..i] + [r];
        ViewSnoc(log[..i], r, tenant);
      }
      assert log[..|log|] == log;
    }

    method CheckAntiFork(tenant: string, aCert: string) returns (ok: bool)
      ensures ok <==> !Continued(View(log, tenant), aCert)
    {
      var edges := LoadContinuesEdges(tenant);
      var todo := edges.Keys;
      while todo != {}
        invariant todo <= edges.Keys
        invariant forall s :: s in edges && s !in todo ==> edges[s].target != aCert
        decreases |todo|
      {
        var s :| s in todo;
        if edges[s].target == aCert {
          return false;
        }
        todo := todo - {s};
      }
      ok := true;
    }

    /** One atomic ceremony: 0 when all four preconditions hold, 2 otherwise; one record is written on 0 only. */
    method RunCeremony(q: Request, registry: Registry, dryRun: bool) returns (code: int)
      modifies this
      ensures code == if Admissible(old(log), q, registry) then 0 else 2
      ensures log == if code == 0 && !dryRun then old(log) + [RecordOf(q)] else old(log)
      ensures code == 0 <==> AskedFor(Record(q.tenant, q.bKey, q.aCert, q.tier), q, registry)
                             && forall i: nat :: Latest(old(log), q.tenant, i) ==> old(log)[i].target != q.aCert
    {
      AdmissibleExact(log, q, registry);
      var unforked := CheckAntiFork(q.tenant, q.aCert);
      if !(ControlOfB(q) && ARevoked(registry, q.aAgent) && unforked && TierKnown(q.tier)) {
        return 2;
      }
      if dryRun {
        return 0;
      }
      log := log + [RecordOf(q)];
      return 0;
    }
  }

  // ----- What B signs -----

  const MARK := "|nonce="

  lemma MessageBody(b: string, cert: string, n: string, head: string)
    requires head == "cgr-continues.v1|b=" + b + "|a_cert="
    ensures CeremonyMessage(b, cert, n) == head + (cert + MARK + n)
  {
    assert head + (cert + MARK + n) == head + cert + MARK + n;
  }

  /** The mark cannot straddle the end of a longer certificate text. */
  lemma MarkInside(cert: string, n: string, cert': string, n': string)
    requires cert + MARK + n == cert' + MARK + n' && |cert| < |cert'|
    ensures cert + MARK <= cert'
  {
    var j := cert + MARK + n;
    assert j[|cert'|] == (cert' + MARK + n')[|cert'|] == '|';
    assert forall k :: 0 < k < 7 ==> j[|cert| + k] == MARK[k] && MARK[k] != '|';
    assert |cert| + (|cert'| - |cert|) == |cert'|;
    assert cert' == j[..|cert'|] && cert + MARK == j[..|cert| + 7];
  }

  lemma SameLength(cert: string, x: string, cert': string, y: string)
    requires cert + x == cert' + y && |cert| == |cert'|
    ensures cert == cert'
  {
    assert cert == (cert + x)[..|cert|] && cert' == (cert' + y)[..|cert|];
  }

  /** A signature by b can serve two certificates exactly when one text continues the other past a nonce mark. */
  lemma SignatureServesTwoIff(b: string, cert: string, cert': string)
    requires cert != cert'
    ensures (exists n, n' :: CeremonyMessage(b, cert, n) == CeremonyMessage(b, cert', n'))
       <==> cert + MARK <= cert' || cert' + MARK <= cert
  {
    var head := "cgr-continues.v1|b=" + b + "|a_cert=";
    if cert + MARK <= cert' {
      var m := cert'[|cert| + 7..] + MARK;
      assert cert + MARK + m == cert' + MARK;
      MessageBody(b, cert, m, head);
      MessageBody(b, cert', "", head);
      assert CeremonyMessage(b, cert, m) == CeremonyMessage(b, cert', "");
    }
    if cert' + MARK <= cert {
      var m := cert[|cert'| + 7..] + MARK;
      assert cert' + MARK + m == cert + MARK;
      MessageBody(b, cert', m, head);
      MessageBody(b, cert, "", head);
      assert CeremonyMessage(b, cert, "") == CeremonyMessage(b, cert', m);
    }
    forall n, n' | CeremonyMessage(b, cert, n) == CeremonyMessage(b, cert', n')
      ensures cert + MARK <= cert' || cert' + MARK <= cert
    {
      MessageBody(b, cert, n, head);
      MessageBody(b, cert', n', head);
      SamePrefix(head, cert + MARK + n, cert' + MARK + n');
      assert cert + (MARK + n) == cert + MARK + n && cert' + (MARK + n') == cert' + MARK + n';
      if |cert| < |cert'| {
        MarkInside(cert, n, cert', n');
      } else if |cert'| < |cert| {
        MarkInside(cert', n', cert, n);
      } else {
        SameLength(cert, MARK + n, cert', MARK + n');
      }
    }
  }

  lemma SamePrefix(head: string, x: string, y: string)
    requires head + x == head + y
    ensures x == y
  {
    assert x == (head + x)[|head|..] && y == (head + y)[|head|..];
  }

  // ----- What is admitted -----

  /**
   B signed this very continuation, the registry has A with a revocation time, and the tier is one of the three.
   */
  ghost predicate AskedFor(r: Record, q: Request, registry: Registry) {
    && r.tenant == q.tenant && r.subject == q.bKey && r.target == q.aCert && r.tier == q.tier
    && q.bSig.key == r.subject
    && q.bSig.message == "cgr-continues.v1|b=" + r.subject + "|a_cert=" + r.target + "|nonce=" + q.nonce
    && registry != None && q.aAgent in registry.value && registry.value[q.aAgent] != None
    && (r.tier == "custody_record" || r.tier == "issuer_records" || r.tier == "operator_verification")
  }

  /** Record i is complete and of the tenant, and no later such record has its subject. */
  ghost predicate Latest(log: seq<Record>, tenant: string, i: nat) {
    && i < |log| && Complete(log[i], tenant)
    && forall j :: i < j < |log| && Complete(log[j], tenant) ==> log[j].subject != log[i].subject
  }

  ghost predicate Complete(r: Record, tenant: string) {
    r.tenant == tenant && r.subject != "" && r.target != "" && r.tier != ""
  }

  lemma LatestSnoc(front: seq<Record>, r: Record, tenant: string, i: nat)
    ensures Latest(front + [r], tenant, i) <==>
      if i == |front| then Complete(r, tenant)
      else Latest(front, tenant, i) && !(Complete(r, tenant) && r.subject == front[i].subject)
  {
    var log := front + [r];
    assert forall j :: 0 <= j < |front| ==> log[j] == front[j];
    assert log[|front|] == r;
  }

  /** Record i is the latest of its subject s and says what the edge says. */
  ghost predicate LatestSays(log: seq<Record>, tenant: string, i: nat, s: string, edge: Edge) {
    Latest(log, tenant, i) && log[i].subject == s && log[i].target == edge.target && log[i].tier == edge.tier
  }

  /** The view shows exactly the latest record of each subject. */
  lemma {:induction false} ViewShowsLatest(log: seq<Record>, tenant: string, s: string, edge: Edge)
    ensures (s in View(log, tenant) && View(log, tenant)[s] == edge) <==> exists i: nat :: LatestSays(log, tenant, i, s, edge)
  {
    if log != [] {
      var front, r := log[..|log| - 1], log[|log| - 1];
      ViewShowsLatest(front, tenant, s, edge);
      assert log == front + [r];
      ViewSnoc(front, r, tenant);
      LatestSnoc(front, r, tenant, |front|);
      forall i: nat | i != |front|
        ensures LatestSays(log, tenant, i, s, edge)
           <==> LatestSays(front, tenant, i, s, edge) && !(Complete(r, tenant) && r.subject == s)
      {
        LatestSnoc(front, r, tenant, i);
      }
      assert LatestSays(log, tenant, |front|, s, edge) <==> Complete(r, tenant) && r.subject == s && edge == Edge(r.target, r.tier);
    }
  }

  /** A request is admitted exactly when it was asked for in that way and no latest record has its certificate. */
  lemma AdmissibleExact(log: seq<Record>, q: Request, registry: Registry)
    ensures Admissible(log, q, registry) <==>
      && AskedFor(Record(q.tenant, q.bKey, q.aCert, q.tier), q, registry)
      && forall i: nat :: Latest(log, q.tenant, i) ==> log[i].target != q.aCert
  {
    var edges := View(log, q.tenant);
    forall i: nat | Latest(log, q.tenant, i)
      ensures log[i].subject in edges && edges[log[i].subject].target == log[i].target
    {
      var edge := Edge(log[i].target, log[i].tier);
      assert LatestSays(log, q.tenant, i, log[i].subject, edge);
      ViewShowsLatest(log, q.tenant, log[i].subject, edge);
    }
    forall s | s in edges
      ensures exists i: nat :: Latest(log, q.tenant, i) && log[i].target == edges[s].target
    {
      ViewShowsLatest(log, q.tenant, s, edges[s]);
      var i: nat :| LatestSays(log, q.tenant, i, s, edges[s]);
    }
  }

  /** A run only appends, and every record it appends was asked for. */
  lemma {:induction false} RecordsWereAskedFor(log: seq<Record>, requests: seq<Request>, registry: Registry, i: nat)
    ensures log <= RunAll(log, requests, registry)
    ensures |log| <= i < |RunAll(log, requests, registry)| ==>
      exists q :: q in requests && RunAll(log, requests, registry)[i] == Record(q.tenant, q.bKey, q.aCert, q.tier)
                  && AskedFor(RunAll(log, requests, registry)[i], q, registry)
  {
    if requests != [] {
      var front, q := requests[..|requests| - 1], requests[|requests| - 1];
      var before := RunAll(log, front, registry);
      RecordsWereAskedFor(log, front, registry, i);
      AdmissibleExact(before, q, registry);
      assert forall p :: p in front ==> p in requests;
      if i == |before| && Admissible(before, q, registry) {
        assert q in requests && AskedFor(RunAll(log, requests, registry)[i], q, registry);
      }
    }
  }

  /** One signature has been accepted for both requests, each by some store. */
  ghost predicate AcceptedTwice(p: Request, q: Request, registry: Registry) {
    p.bSig == q.bSig && (exists log :: Admissible(log, p, registry)) && (exists log :: Admissible(log, q, registry))
  }

  lemma AcceptedMessages(p: Request, q: Request, registry: Registry)
    requires AcceptedTwice(p, q, registry)
    ensures p.bKey == q.bKey && CeremonyMessage(p.bKey, p.aCert, p.nonce) == CeremonyMessage(p.bKey, q.aCert, q.nonce)
  {
  }

  lemma AcceptedOnEmpty(tenant: string, b: string, cert: string, nonce: string, agent: string, registry: Registry)
    requires ARevoked(registry, agent)
    ensures Admissible([], Request(tenant, b, nonce, Signature(b, CeremonyMessage(b, cert, nonce)), agent, cert, "custody_record"), registry)
  {
    assert View([], tenant) == map[];
  }

  /** So one signature of b is accepted for two certificates exactly when one continues the other past a nonce mark. */
  lemma AcceptedTwiceIff(b: string, cert: string, cert': string, registry: Registry, agent: string)
    requires cert != cert' && ARevoked(registry, agent)
    ensures (exists p, q :: AcceptedTwice(p, q, registry) && p.bKey == b && p.aCert == cert && q.aCert == cert')
       <==> cert + "|nonce=" <= cert' || cert' + "|nonce=" <= cert
  {
    SignatureServesTwoIff(b, cert, cert');
    if n, n' :| CeremonyMessage(b, cert, n) == CeremonyMessage(b, cert', n') {
      var sig := Signature(b, CeremonyMessage(b, cert, n));
      AcceptedOnEmpty("", b, cert, n, agent, registry);
      AcceptedOnEmpty("", b, cert', n', agent, registry);
      assert AcceptedTwice(Request("", b, n, sig, agent, cert, "custody_record"),
                           Request("", b, n', sig, agent, cert', "custody_record"), registry);
    }
    forall p, q | AcceptedTwice(p, q, registry) && p.bKey == b && p.aCert == cert && q.aCert == cert'
      ensures exists n, n' :: CeremonyMessage(b, cert, n) == CeremonyMessage(b, cert', n')
    {
      AcceptedMessages(p, q, registry);
    }
  }

  // ----- At most one successor, in atomic runs -----

  /** No two successors of one certificate are visible. */
  ghost predicate ViewUnique(edges: Edges) {
    forall s, u :: s in edges && u in edges && edges[s].target == edges[u].target ==> s == u
  }

  /** No two successors of one certificate were ever recorded. */
  ghost predicate RecordsUnique(log: seq<Record>, tenant: string) {
    forall i, j :: 0 <= i < j < |log| && Recorded(log[i], tenant) && Recorded(log[j], tenant) && log[i].target == log[j].target
      ==> log[i].subject == log[j].subject
  }

  predicate Recorded(r: Record, tenant: string) { r.tenant == tenant && WellFormed(r) }

  /** A sequence of atomic ceremonies against one registry, each written if it is admissible. */
  function RunAll(log: seq<Record>, requests: seq<Request>, registry: Registry): seq<Record> {
    if requests == [] then log
    else
      var before, q := RunAll(log, requests[..|requests| - 1], registry), requests[|requests| - 1];
      if Admissible(before, q, registry) then before + [RecordOf(q)] else before
  }

  lemma StepKeepsViewUnique(log: seq<Record>, r: Record, tenant: string)
    requires ViewUnique(View(log, tenant)) && (r.tenant == tenant ==> !Continued(View(log, tenant), r.target))
    ensures ViewUnique(View(log + [r], tenant))
  {
    ViewSnoc(log, r, tenant);
  }

  /** Whatever is asked, even for a successor key already used, atomic ceremonies show at most one successor. */
  lemma {:induction false} AtomicRunsNeverFork(log: seq<Record>, requests: seq<Request>, registry: Registry,
                                               tenant: string)
    requires ViewUnique(View(log, tenant))
    ensures ViewUnique(View(RunAll(log, requests, registry), tenant))
  {
    if requests != [] {
      var before, q := RunAll(log, requests[..|requests| - 1], registry), requests[|requests| - 1];
      AtomicRunsNeverFork(log, requests[..|requests| - 1], registry, tenant);
      if Admissible(before, q, registry) {
        StepKeepsViewUnique(before, RecordOf(q), tenant);
      }
    }
  }

  ghost predicate FreshSubject(log: seq<Record>, q: Request) {
    forall i :: 0 <= i < |log| && log[i].tenant == q.tenant ==> log[i].subject != q.bKey
  }

  /** Each admitted ceremony brings a successor key the tenant has not used before. */
  ghost predicate KeysUsedOnce(log: seq<Record>, requests: seq<Request>, registry: Registry) {
    forall k :: 0 <= k < |requests| ==>
      var before := RunAll(log, requests[..k], registry);
      Admissible(before, requests[k], registry) ==> FreshSubject(before, requests[k])
  }

  /** Every record is the visible edge of its subject. */
  ghost predicate NothingHidden(log: seq<Record>, tenant: string) {
    forall i :: 0 <= i < |log| && Recorded(log[i], tenant) ==> Shown(log, tenant, log[i])
  }

  ghost predicate Shown(log: seq<Record>, tenant: string, r: Record) {
    r.subject in View(log, tenant) && View(log, tenant)[r.subject].target == r.target
  }

  lemma StepKeepsRecordsUnique(log: seq<Record>, q: Request, tenant: string)
    requires NothingHidden(log, tenant) && RecordsUnique(log, tenant)
    requires q.tenant == tenant ==> AntiFork(log, q) && FreshSubject(log, q)
    ensures NothingHidden(log + [RecordOf(q)], tenant) && RecordsUnique(log + [RecordOf(q)], tenant)
  {
    var r, log' := RecordOf(q), log + [RecordOf(q)];
    ViewSnoc(log, r, tenant);
    forall i | 0 <= i < |log'| && Recorded(log'[i], tenant)
      ensures Shown(log', tenant, log'[i])
    {
      assert i < |log| ==> log'[i] == log[i] && Shown(log, tenant, log[i]);
    }
    forall i | 0 <= i < |log| && Recorded(log[i], tenant) && Recorded(r, tenant)
      ensures log[i].target != r.target
    {
      assert Shown(log, tenant, log[i]);
    }
  }

  /** With every successor key used once, the whole record, and not only its view, names at most one successor. */
  lemma {:induction false} FreshKeysNeverFork(requests: seq<Request>, registry: Registry, tenant: string, n: nat)
    requires KeysUsedOnce([], requests, registry) && n <= |requests|
    ensures var log := RunAll([], requests[..n], registry);
      NothingHidden(log, tenant) && RecordsUnique(log, tenant)
  {
    if n > 0 {
      var before, q := RunAll([], requests[..n - 1], registry), requests[n - 1];
      FreshKeysNeverFork(requests, registry, tenant, n - 1);
      assert requests[..n][..n - 1] == requests[..n - 1];
      if Admissible(before, q, registry) {
        StepKeepsRecordsUnique(before, q, tenant);
      }
    }
  }

  /** In particular, ceremonies that name different successor keys within a tenant never fork its record. */
  lemma {:induction false} DistinctKeysNeverFork(requests: seq<Request>, registry: Registry, tenant: string)
    requires forall i, j :: 0 <= i < j < |requests| && requests[i].tenant == requests[j].tenant ==>
                              requests[i].bKey != requests[j].bKey
    ensures RecordsUnique(RunAll([], requests, registry), tenant)
  {
    forall k | 0 <= k < |requests|
      ensures FreshSubject(RunAll([], requests[..k], registry), requests[k])
    {
      KeysOfRecords(requests[..k], registry);
    }
    FreshKeysNeverFork(requests, registry, tenant, |requests|);
    assert requests[..|requests|] == requests;
  }

  /** Every record has tenant and key of one of the requests. */
  lemma {:induction false} KeysOfRecords(requests: seq<Request>, registry: Registry)
    ensures var log := RunAll([], requests, registry);
      forall i :: 0 <= i < |log| ==>
        exists j :: 0 <= j < |requests| && requests[j].tenant == log[i].tenant && requests[j].bKey == log[i].subject
  {
    var log := RunAll([], requests, registry);
    forall i: nat | i < |log|
      ensures exists j :: 0 <= j < |requests| && requests[j].tenant == log[i].tenant && requests[j].bKey == log[i].subject
    {
      RecordsWereAskedFor([], requests, registry, i);
      var q :| q in requests && AskedFor(log[i], q, registry);
      var j :| 0 <= j < |requests| && requests[j] == q;
    }
  }

  // ----- When a key is used again -----

  /** The certificate was continued once, but no visible edge shows it any more. */
  ghost predicate HiddenTarget(log: seq<Record>, tenant: string, target: string) {
    && (exists i :: 0 <= i < |log| && Recorded(log[i], tenant) && log[i].target == target)
    && !Continued(View(log, tenant), target)
  }

  /** Any successor key may be asked for the certificate, with everything but the store in order. */
  function RequestFor(tenant: string, b: string, target: string, agent: string): Request {
    Request(tenant, b, "", Signature(b, CeremonyMessage(b, target, "")), agent, target, "custody_record")
  }

  /**
   As long as the record has not forked, the next ceremony can fork it exactly when some certificate is hidden:
   that is, when the successor of that certificate has meanwhile been given another predecessor.
   */
  lemma NextCanForkIff(log: seq<Record>, tenant: string, registry: Registry, agent: string)
    requires RecordsUnique(log, tenant) && ARevoked(registry, agent)
    ensures (exists q: Request :: q.tenant == tenant && Admissible(log, q, registry) && !RecordsUnique(log + [RecordOf(q)], tenant))
       <==> (exists target :: HiddenTarget(log, tenant, target))
  {
    if target :| HiddenTarget(log, tenant, target) {
      var i :| 0 <= i < |log| && Recorded(log[i], tenant) && log[i].target == target;
      var q := RequestFor(tenant, log[i].subject + "'", target, agent);
      var log' := log + [RecordOf(q)];
      assert |log[i].subject + "'"| == |log[i].subject| + 1;
      assert log'[i] == log[i] && log'[|log|] == RecordOf(q);
      assert Recorded(log'[|log|], tenant);
      assert Admissible(log, q, registry) && !RecordsUnique(log', tenant);
    }
    forall q: Request | q.tenant == tenant && Admissible(log, q, registry) && !RecordsUnique(log + [RecordOf(q)], tenant)
      ensures HiddenTarget(log, tenant, q.aCert)
    {
      var log' := log + [RecordOf(q)];
      var i, j :| 0 <= i < j < |log'| && Recorded(log'[i], tenant) && Recorded(log'[j], tenant)
                  && log'[i].target == log'[j].target && log'[i].subject != log'[j].subject;
      assert forall k :: 0 <= k < |log| ==> log'[k] == log[k];
    }
  }

  lemma RequestAdmissible(log: seq<Record>, tenant: string, b: string, target: string, agent: string, registry: Registry)
    requires ARevoked(registry, agent) && !Continued(View(log, tenant), target)
    ensures Admissible(log, RequestFor(tenant, b, target, agent), registry)
  {
  }

  /** A second ceremony by the same key takes the first edge out of the view. */
  lemma ReusedKeyView(tenant: string, b: string, p: Record, q: Record)
    requires Recorded(p, tenant) && Recorded(q, tenant) && p.subject == q.subject == b
    ensures View([], tenant) == map[]
    ensures View([p], tenant) == map[b := Edge(p.target, p.tier)]
    ensures View([p, q], tenant) == map[b := Edge(q.target, q.tier)]
  {
    ViewSnoc([], p, tenant);
    ViewSnoc([p], q, tenant);
    assert [] + [p] == [p] && [p] + [q] == [p, q];
  }

  /** B continues one certificate, then another; a second key may then continue the first one as well. */
  lemma ReuseForks(tenant: string, b: string, c: string, one: string, two: string, registry: Registry, agent: string)
    requires b != [] && c != [] && one != [] && two != [] && b != c && one != two && ARevoked(registry, agent)
    ensures var requests := [RequestFor(tenant, b, one, agent), RequestFor(tenant, b, two, agent), RequestFor(tenant, c, one, agent)];
      !RecordsUnique(RunAll([], requests, registry), tenant)
  {
    var p, q, r := RequestFor(tenant, b, one, agent), RequestFor(tenant, b, two, agent), RequestFor(tenant, c, one, agent);
    ReusedKeyView(tenant, b, RecordOf(p), RecordOf(q));
    RequestAdmissible([], tenant, b, one, agent, registry);
    RequestAdmissible([RecordOf(p)], tenant, b, two, agent, registry);
    RequestAdmissible([RecordOf(p), RecordOf(q)], tenant, c, one, agent, registry);
    ThreeRuns(p, q, r, registry);
    var log := [RecordOf(p), RecordOf(q), RecordOf(r)];
    assert log[0].target == log[2].target && Recorded(log[0], tenant) && Recorded(log[2], tenant);
  }

  lemma ThreeRuns(p: Request, q: Request, r: Request, registry: Registry)
    requires Admissible([], p, registry) && Admissible([RecordOf(p)], q, registry)
    requires Admissible([RecordOf(p), RecordOf(q)], r, registry)
    ensures RunAll([], [p, q, r], registry) == [RecordOf(p), RecordOf(q), RecordOf(r)]
  {
    assert [p, q, r][..2] == [p, q] && [p, q][..1] == [p] && [p][..0] == [];
    assert RunAll([], [p], registry) == [RecordOf(p)];
    assert RunAll([], [p, q], registry) == [RecordOf(p), RecordOf(q)];
  }

  /** The record an admitted ceremony writes is shown exactly when neither its key nor its certificate is empty. */
  lemma EdgeShownIff(log: seq<Record>, q: Request, registry: Registry)
    requires Admissible(log, q, registry)
    ensures Shown(log + [RecordOf(q)], q.tenant, RecordOf(q)) <==> q.bKey != [] && q.aCert != []
  {
    ViewSnoc(log, RecordOf(q), q.tenant);
  }

  /** An empty certificate can be continued by anybody, any number of times, and no edge ever shows. */
  lemma EmptyCertificateNeverShows(tenant: string, b: string, c: string, registry: Registry, agent: string)
    requires b != [] && c != [] && ARevoked(registry, agent)
    ensures var p, q := RequestFor(tenant, b, "", agent), RequestFor(tenant, c, "", agent);
      RunAll([], [p, q], registry) == [RecordOf(p), RecordOf(q)] && View([RecordOf(p), RecordOf(q)], tenant) == map[]
  {
    var p, q := RequestFor(tenant, b, "", agent), RequestFor(tenant, c, "", agent);
    assert View([], tenant) == map[];
    ViewSnoc([], RecordOf(p), tenant);
    ViewSnoc([RecordOf(p)], RecordOf(q), tenant);
    assert [] + [RecordOf(p)] == [RecordOf(p)] && [RecordOf(p)] + [RecordOf(q)] == [RecordOf(p), RecordOf(q)];
    assert [p, q][..1] == [p] && [p][..0] == [];
    assert RunAll([], [p], registry) == [RecordOf(p)];
  }

  /** The check sees one tenant only: what another tenant records neither shows nor stops anything. */
  lemma TenantsUnseen(log: seq<Record>, r: Record, tenant: string)
    requires r.tenant != tenant
    ensures View(log + [r], tenant) == View(log, tenant)
  {
    ViewSnoc(log, r, tenant);
  }

  // ----- Checks and writes as separate steps -----

  /** A ceremony whose checks have passed is pending until it writes. */
  datatype State = State(log: seq<Record>, pending: seq<Request>)

  datatype Step = Check(request: Request) | Write(index: nat)

  function Without(pending: seq<Request>, i: nat): seq<Request>
    requires i < |pending|
  {
    pending[..i] + pending[i + 1..]
  }

  function Next(s: State, step: Step, registry: Registry): State {
    match step
    case Check(q) => if Admissible(s.log, q, registry) then s.(pending := s.pending + [q]) else s
    case Write(i) => if i < |s.pending| then State(s.log + [RecordOf(s.pending[i])], Without(s.pending, i)) else s
  }

  function RunSteps(s: State, steps: seq<Step>, registry: Registry): State {
    if steps == [] then s else Next(RunSteps(s, steps[..|steps| - 1], registry), steps[|steps| - 1], registry)
  }

  /** Two requests that would show different successors of one certificate. */
  predicate Rivals(p: Request, q: Request) {
    && p.tenant == q.tenant && p.aCert == q.aCert && p.bKey != q.bKey
    && WellFormed(RecordOf(p)) && WellFormed(RecordOf(q))
  }

  ghost predicate NoRivals(pending: seq<Request>) {
    forall i, j :: 0 <= i < j < |pending| ==> !Rivals(pending[i], pending[j])
  }

  /** No visible edge gives the certificate of this request to another successor. */
  ghost predicate Unclaimed(log: seq<Record>, q: Request) {
    WellFormed(RecordOf(q)) ==>
      forall s :: s in View(log, q.tenant) && View(log, q.tenant)[s].target == q.aCert ==> s == q.bKey
  }

  /** No view has forked, and every pending request is still unclaimed, as it was when it passed its check. */
  ghost predicate Unforked(s: State) {
    && (forall tenant :: ViewUnique(View(s.log, tenant)))
    && (forall i :: 0 <= i < |s.pending| ==> Unclaimed(s.log, s.pending[i]))
  }

  lemma WriteKeepsViewUnique(log: seq<Record>, p: Request, tenant: string)
    requires ViewUnique(View(log, tenant)) && Unclaimed(log, p)
    ensures ViewUnique(View(log + [RecordOf(p)], tenant))
  {
    ViewSnoc(log, RecordOf(p), tenant);
  }

  lemma WriteSafe(s: State, i: nat, registry: Registry)
    requires Unforked(s) && NoRivals(s.pending) && i < |s.pending|
    ensures Unforked(Next(s, Write(i), registry)) && NoRivals(Next(s, Write(i), registry).pending)
  {
    var p, rest := s.pending[i], Without(s.pending, i);
    forall tenant ensures ViewUnique(View(s.log + [RecordOf(p)], tenant)) {
      WriteKeepsViewUnique(s.log, p, tenant);
    }
    forall j | 0 <= j < |rest|
      ensures Unclaimed(s.log + [RecordOf(p)], rest[j])
    {
      var k := if j < i then j else j + 1;
      assert rest[j] == s.pending[k];
      assert !Rivals(s.pending[if i < k then i else k], s.pending[if i < k then k else i]);
    }
    forall j, k | 0 <= j < k < |rest|
      ensures !Rivals(rest[j], rest[k])
    {
      assert !Rivals(s.pending[if j < i then j else j + 1], s.pending[if k < i then k else k + 1]);
    }
  }

  lemma AntiForkUnclaimed(log: seq<Record>, q: Request)
    requires AntiFork(log, q)
    ensures Unclaimed(log, q)
  {
  }

  ghost predicate AllWrites(steps: seq<Step>) { forall i :: 0 <= i < |steps| ==> steps[i].Write? }

  /** Letting pending ceremonies write, and starting none, these steps make a view fork. */
  ghost predicate WritesFork(s: State, steps: seq<Step>, tenant: string, registry: Registry) {
    AllWrites(steps) && !ViewUnique(View(RunSteps(s, steps, registry).log, tenant))
  }

  lemma {:induction false} WritesStaySafe(s: State, steps: seq<Step>, registry: Registry)
    requires Unforked(s) && NoRivals(s.pending) && AllWrites(steps)
    ensures Unforked(RunSteps(s, steps, registry)) && NoRivals(RunSteps(s, steps, registry).pending)
  {
    if steps != [] {
      var before, last := RunSteps(s, steps[..|steps| - 1], registry), steps[|steps| - 1];
      WritesStaySafe(s, steps[..|steps| - 1], registry);
      if last.index < |before.pending| {
        WriteSafe(before, last.index, registry);
      }
    }
  }

  lemma OverlapForks(s: State, i: nat, j: nat, registry: Registry)
    requires i < j < |s.pending| && Rivals(s.pending[i], s.pending[j])
    ensures WritesFork(s, [Write(j), Write(i)], s.pending[i].tenant, registry)
  {
    var p, q, tenant := s.pending[i], s.pending[j], s.pending[i].tenant;
    assert [Write(j), Write(i)][..1] == [Write(j)] && [Write(j)][..0] == [];
    assert RunSteps(s, [Write(j)], registry) == Next(s, Write(j), registry);
    assert Without(s.pending, j)[i] == p;
    ViewSnoc(s.log, RecordOf(q), tenant);
    ViewSnoc(s.log + [RecordOf(q)], RecordOf(p), tenant);
    var edges := View(s.log + [RecordOf(q)] + [RecordOf(p)], tenant);
    assert p.bKey in edges && q.bKey in edges && edges[p.bKey].target == edges[q.bKey].target;
  }

  /** From an unforked state the pending writes can fork a view exactly when two of them are rivals. */
  lemma WritesForkIff(s: State, registry: Registry)
    requires Unforked(s)
    ensures (exists steps, tenant :: WritesFork(s, steps, tenant, registry)) <==> !NoRivals(s.pending)
  {
    if i, j :| 0 <= i < j < |s.pending| && Rivals(s.pending[i], s.pending[j]) {
      OverlapForks(s, i, j, registry);
    }
    forall steps, tenant | NoRivals(s.pending)
      ensures !WritesFork(s, steps, tenant, registry)
    {
      if AllWrites(steps) {
        WritesStaySafe(s, steps, registry);
      }
    }
  }

  // ----- Whole schedules -----

  function After(steps: seq<Step>, n: nat, registry: Registry): State
    requires n <= |steps|
  {
    RunSteps(State([], []), steps[..n], registry)
  }

  /** Step k does not admit a ceremony while a rival of it is pending. */
  ghost predicate SerialisedAt(steps: seq<Step>, k: nat, registry: Registry)
    requires k < |steps|
  {
    var before := After(steps, k, registry);
    steps[k].Check? && Admissible(before.log, steps[k].request, registry) ==>
      forall i :: 0 <= i < |before.pending| ==> !Rivals(before.pending[i], steps[k].request)
  }

  ghost predicate Serialised(steps: seq<Step>, n: nat, registry: Registry)
    requires n <= |steps|
  {
    forall k :: 0 <= k < n ==> SerialisedAt(steps, k, registry)
  }

  lemma AfterStep(steps: seq<Step>, k: nat, registry: Registry)
    requires k < |steps|
    ensures After(steps, k + 1, registry) == Next(After(steps, k, registry), steps[k], registry)
  {
    assert steps[..k + 1][..k] == steps[..k];
  }

  lemma CheckSafe(s: State, q: Request, registry: Registry)
    requires Unforked(s) && NoRivals(s.pending)
    requires Admissible(s.log, q, registry) ==> forall i :: 0 <= i < |s.pending| ==> !Rivals(s.pending[i], q)
    ensures Unforked(Next(s, Check(q), registry)) && NoRivals(Next(s, Check(q), registry).pending)
  {
    if Admissible(s.log, q, registry) {
      AntiForkUnclaimed(s.log, q);
    }
  }

  /** Admitting no rival of a pending ceremony is enough: whatever else interleaves, no view ever forks. */
  lemma {:induction false} SerialisedNeverForks(steps: seq<Step>, n: nat, registry: Registry)
    requires n <= |steps| && Serialised(steps, n, registry)
    ensures Unforked(After(steps, n, registry)) && NoRivals(After(steps, n, registry).pending)
  {
    if n == 0 {
      assert After(steps, 0, registry) == State([], []);
    } else {
      var before := After(steps, n - 1, registry);
      SerialisedNeverForks(steps, n - 1, registry);
      AfterStep(steps, n - 1, registry);
      assert SerialisedAt(steps, n - 1, registry);
      if steps[n - 1].Check? {
        CheckSafe(before, steps[n - 1].request, registry);
      } else if steps[n - 1].index < |before.pending| {
        WriteSafe(before, steps[n - 1].index, registry);
      }
    }
  }

  lemma {:induction false} FirstOverlap(steps: seq<Step>, n: nat, registry: Registry) returns (k: nat)
    requires n <= |steps| && !Serialised(steps, n, registry)
    ensures k < n && Serialised(steps, k, registry) && !SerialisedAt(steps, k, registry)
  {
    if Serialised(steps, n - 1, registry) {
      k := n - 1;
    } else {
      k := FirstOverlap(steps, n - 1, registry);
    }
  }

  /** At the first step that admits a rival, the pending writes can go on to a fork. */
  lemma OverlapReachesFork(steps: seq<Step>, k: nat, registry: Registry) returns (writes: seq<Step>, tenant: string)
    requires k < |steps| && Serialised(steps, k, registry) && !SerialisedAt(steps, k, registry)
    ensures WritesFork(After(steps, k + 1, registry), writes, tenant, registry)
  {
    var before, q := After(steps, k, registry), steps[k].request;
    SerialisedNeverForks(steps, k, registry);
    AfterStep(steps, k, registry);
    AntiForkUnclaimed(before.log, q);
    var i :| 0 <= i < |before.pending| && Rivals(before.pending[i], q);
    var next := After(steps, k + 1, registry);
    assert next.pending == before.pending + [q];
    assert Rivals(next.pending[i], next.pending[|before.pending|]);
    WritesForkIff(next, registry);
    writes, tenant :| WritesFork(next, writes, tenant, registry);
  }

  /** Some moment of the schedule from which the ceremonies then pending can write a fork. */
  ghost predicate CanFork(steps: seq<Step>, registry: Registry) {
    exists n: nat, writes, tenant :: n <= |steps| && WritesFork(After(steps, n, registry), writes, tenant, registry)
  }

  /** A schedule of checks and writes can fork exactly when it somewhere admits a rival of a pending ceremony. */
  lemma ScheduleForksIff(steps: seq<Step>, registry: Registry)
    ensures CanFork(steps, registry) <==> !Serialised(steps, |steps|, registry)
  {
    if !Serialised(steps, |steps|, registry) {
      var k := FirstOverlap(steps, |steps|, registry);
      var writes, tenant := OverlapReachesFork(steps, k, registry);
      assert WritesFork(After(steps, k + 1, registry), writes, tenant, registry);
    }
    forall n: nat, writes, tenant | n <= |steps| && Serialised(steps, |steps|, registry)
      ensures !WritesFork(After(steps, n, registry), writes, tenant, registry)
    {
      SerialisedNeverForks(steps, n, registry);
      WritesForkIff(After(steps, n, registry), registry);
    }
  }

  /** Two operators, one certificate: both checks pass before either writes, and the writes then fork the view. */
  lemma ConcurrentCeremoniesFork(tenant: string, b: string, c: string, cert: string, registry: Registry, agent: string)
    requires b != [] && c != [] && cert != [] && b != c && ARevoked(registry, agent)
    ensures var checks := [Check(RequestFor(tenant, b, cert, agent)), Check(RequestFor(tenant, c, cert, agent))];
      && CanFork(checks, registry)
      && !ViewUnique(View(RunSteps(State([], []), checks + [Write(1), Write(0)], registry).log, tenant))
  {
    var p, q := RequestFor(tenant, b, cert, agent), RequestFor(tenant, c, cert, agent);
    var checks := [Check(p), Check(q)];
    assert View([], tenant) == map[];
    BothPending(p, q, registry);
    assert checks[..2] == checks && After(checks, 2, registry) == State([], [p, q]);
    assert Rivals([p, q][0], [p, q][1]);
    OverlapForks(After(checks, 2, registry), 0, 1, registry);
    RunStepsAppend(State([], []), checks, [Write(1), Write(0)], registry);
  }

  lemma BothPending(p: Request, q: Request, registry: Registry)
    requires Admissible([], p, registry) && Admissible([], q, registry)
    ensures RunSteps(State([], []), [Check(p), Check(q)], registry) == State([], [p, q])
  {
    assert [Check(p), Check(q)][..1] == [Check(p)] && [Check(p)][..0] == [];
    assert RunSteps(State([], []), [Check(p)], registry) == State([], [p]);
  }

  lemma {:induction false} RunStepsAppend(s: State, a: seq<Step>, b: seq<Step>, registry: Registry)
    ensures RunSteps(s, a + b, registry) == RunSteps(RunSteps(s, a, registry), b, registry)
    decreases |b|
  {
    if b == [] {
      assert a + b == a;
    } else {
      assert (a + b)[..|a + b| - 1] == a + b[..|b| - 1];
      RunStepsAppend(s, a, b[..|b| - 1], registry);
    }
  }
}
