/**
 Composition governance: certified members are composed, parked for a human, approved, rejected or denied,
 in one table keyed by a hash of (tenant, kind, sorted member ids) and written with upsert semantics.

 Hashes of canonical JSON are the hashed values themselves (an injective hash), a signature is the pair of
 the signing key and the signed fields (an ideal signature), and the gateway's answer and the clock are
 parameters.
 */
module CompositionGovernance {
  import opened Wrappers
  import opened Sorting
  import opened UnitSeparator
  import opened Licences

  datatype Member = Member(refId: string, licence: string, certified: bool)

  datatype Authority = Authority(principal: string, trustTier: Option<string>)

  datatype Request = Request(kind: string, members: seq<Member>, targetRef: string,
                             authority: Authority, requiredTier: string)

  /** BLAKE2b over tenant US kind US canon(sorted ids); canonical JSON escapes the separator. */
  datatype CompositionId = CompositionId(owner: string, memberIds: seq<string>)

  function RefIds(members: seq<Member>): seq<string> {
    seq(|members|, i requires 0 <= i < |members| => members[i].refId)
  }

  function MemberLicences(members: seq<Member>): seq<string> {
    seq(|members|, i requires 0 <= i < |members| => members[i].licence)
  }

  function ComputeId(tenant: string, kind: string, memberIds: seq<string>): CompositionId {
    CompositionId(Join(tenant, kind), SortStrings(memberIds))
  }

  /** The id does not depend on the order of the members, and tells any two different member lists apart. */
  lemma IdOrderIndependent(tenant: string, kind: string, a: seq<string>, b: seq<string>)
    ensures ComputeId(tenant, kind, a) == ComputeId(tenant, kind, b) <==> multiset(a) == multiset(b)
  {
    SortStringsCanonical(a, b);
  }

  function Rank(tier: string): nat {
    match tier
    case "basic" => 1
    case "verified" => 2
    case "trusted" => 3
    case "release" => 4
    case "root" => 5
    case _ => 0
  }

  function CallerTier(a: Authority): string {
    if a.trustTier.Some? then a.trustTier.value else "untrusted"
  }

  // ----- Rows -----

  datatype Signed = Signed(tenant: string, timestamp: string, kind: string, memberIds: seq<string>,
                           membersDigest: seq<Member>, verdict: Verdict, targetRef: string,
                           authority: Authority, compositionId: CompositionId)

  datatype Signature = Signature(key: string, signed: Signed)

  datatype Document =
    | Parked(members: seq<Member>, authority: Authority)
    | Receipt(members: seq<Member>, signed: Signed, signature: Option<Signature>, signer: Option<string>)

  datatype Status = Governed | WaitingHitl | Denied

  datatype Row = Row(tenant: string, kind: string, targetRef: string, memberCount: nat,
                     document: Document, status: Status)

  type Table = map<CompositionId, Row>

  datatype CompositionError =
    | NoMembers | NotCertified(ids: seq<string>) | LicencesRejected(verdict: Verdict) | InsufficientTier
    | PendingHitl(id: CompositionId) | DeniedByGovernance | NotFound | NotAwaiting(status: Status)

  datatype Gate = Allow | Escalate | Deny

  datatype Outcome = Emitted(row: Row) | Rejected(id: CompositionId)

  function Lookup(t: Table, tenant: string, id: CompositionId): Result<Row, CompositionError> {
    if id in t && t[id].tenant == tenant then Success(t[id]) else Failure(NotFound)
  }

  function Sign(signed: Signed, key: Option<string>): Option<Signature> {
    if key.Some? then Some(Signature(key.value, signed)) else None
  }

  function MakeReceipt(tenant: string, req: Request, id: CompositionId, now: string, key: Option<string>): Document {
    var signed := Signed(tenant, now, req.kind, SortStrings(RefIds(req.members)), req.members,
                         Judge(MemberLicences(req.members)), req.targetRef, req.authority, id);
    Receipt(req.members, signed, Sign(signed, key), key)
  }

  /** ON CONFLICT DO UPDATE: document, status and signature are replaced, the other columns are kept. */
  function Emit(t: Table, tenant: string, req: Request, id: CompositionId, now: string, key: Option<string>): Table {
    var doc := MakeReceipt(tenant, req, id, now, key);
    if id in t then t[id := t[id].(document := doc, status := Governed)]
    else t[id := Row(tenant, req.kind, req.targetRef, |req.members|, doc, Governed)]
  }

  /** ON CONFLICT DO NOTHING. */
  function Park(t: Table, tenant: string, req: Request, id: CompositionId, status: Status): Table {
    if id in t then t
    else t[id := Row(tenant, req.kind, req.targetRef, |req.members|, Parked(req.members, req.authority), status)]
  }

  function SetStatus(t: Table, tenant: string, id: CompositionId, status: Status): Table {
    if id in t && t[id].tenant == tenant then t[id := t[id].(status := status)] else t
  }

  function Uncertified(members: seq<Member>): seq<string> {
    if members == [] then []
    else (if members[0].certified then [] else [members[0].refId]) + Uncertified(members[1..])
  }

  lemma {:induction false} UncertifiedIff(members: seq<Member>)
    ensures Uncertified(members) == [] <==> forall m :: m in members ==> m.certified
  {
    if members != [] {
      UncertifiedIff(members[1..]);
      assert members == [members[0]] + members[1..];
    }
  }

  /** The checks made before the gateway is asked, in the source's order. */
  function Refusal(req: Request): Option<CompositionError> {
    var verdict := Judge(MemberLicences(req.members));
    if req.members == [] then Some(NoMembers)
    else if Uncertified(req.members) != [] then Some(NotCertified(Uncertified(req.members)))
    else if verdict != Compatible then Some(LicencesRejected(verdict))
    else if Rank(CallerTier(req.authority)) < Rank(req.requiredTier) then Some(InsufficientTier)
    else None
  }

  function Compose(t: Table, tenant: string, req: Request, gate: Gate, now: string, key: Option<string>)
    : (Table, Result<Outcome, CompositionError>)
  {
    var id := ComputeId(tenant, req.kind, RefIds(req.members));
    match Refusal(req)
    case Some(e) => (t, Failure(e))
    case None =>
      match gate
      case Escalate => (Park(t, tenant, req, id, WaitingHitl), Failure(PendingHitl(id)))
      case Deny => (Park(t, tenant, req, id, Denied), Failure(DeniedByGovernance))
      case Allow =>
        var after := Emit(t, tenant, req, id, now, key);
        (after, Found(Lookup(after, tenant, id)))
  }

  function Found(r: Result<Row, CompositionError>): Result<Outcome, CompositionError> {
    match r
    case Success(row) => Success(Emitted(row))
    case Failure(e) => Failure(e)
  }

  /** What a parked row is turned back into: nothing is checked again. */
  function Unpark(row: Row): Request
  {
    Request(row.kind, row.document.members, row.targetRef,
            if row.document.Parked? then row.document.authority else row.document.signed.authority, "verified")
  }

  function Resume(t: Table, tenant: string, id: CompositionId, approved: bool, now: string, key: Option<string>)
    : (Table, Result<Outcome, CompositionError>)
  {
    match Lookup(t, tenant, id)
    case Failure(e) => (t, Failure(e))
    case Success(row) =>
      if row.status != WaitingHitl then (t, Failure(NotAwaiting(row.status)))
      else if !approved then (SetStatus(t, tenant, id, Denied), Success(Rejected(id)))
      else
        var after := Emit(t, tenant, Unpark(row), id, now, key);
        (after, Found(Lookup(after, tenant, id)))
  }

  predicate SignatureValid(doc: Document)
    requires doc.Receipt?
  {
    doc.signature.Some? && doc.signer.Some? && doc.signature.value == Signature(doc.signer.value, doc.signed)
  }

  predicate Passes(doc: Document) {
    && doc.Receipt?
    && SignatureValid(doc)
    && doc.members == doc.signed.membersDigest
    && doc.signed.verdict == Compatible
  }

  // ----- Every answer, exactly -----

  /** The ranked tiers, lowest first; every other text, and no tier at all, is below them. */
  const TIERS: seq<string> := ["basic", "verified", "trusted", "release", "root"]

  /** The required tier is in the list, and the caller's is neither there nor anywhere after it. */
  ghost predicate TooLow(authority: Authority, requiredTier: string) {
    exists j :: 0 <= j < |TIERS| && TIERS[j] == requiredTier
                && forall i :: j <= i < |TIERS| ==> authority.trustTier != Some(TIERS[i])
  }

  lemma RankIsPlace(tier: string, j: nat)
    requires j < |TIERS|
    ensures Rank(TIERS[j]) == j + 1
    ensures (forall i :: j <= i < |TIERS| ==> tier != TIERS[i]) <==> Rank(tier) < j + 1
  {
    assert TIERS[0] == "basic" && TIERS[1] == "verified" && TIERS[2] == "trusted" && TIERS[3] == "release" && TIERS[4] == "root";
  }

  lemma TooLowIff(authority: Authority, requiredTier: string)
    ensures TooLow(authority, requiredTier) <==> Rank(CallerTier(authority)) < Rank(requiredTier)
  {
    forall j: nat | j < |TIERS|
      ensures Rank(TIERS[j]) == j + 1
      ensures (forall i :: j <= i < |TIERS| ==> authority.trustTier != Some(TIERS[i])) <==> Rank(CallerTier(authority)) < j + 1
    {
      RankIsPlace(CallerTier(authority), j);
    }
    if Rank(requiredTier) > 0 {
      assert TIERS[Rank(requiredTier) - 1] == requiredTier;
    }
  }

  ghost predicate AllCertified(members: seq<Member>) { forall i :: 0 <= i < |members| ==> members[i].certified }

  /** The reference ids of the members that are not certified, in order. */
  lemma {:induction false} UncertifiedAppend(a: seq<Member>, b: seq<Member>)
    ensures Uncertified(a + b) == Uncertified(a) + Uncertified(b)
    ensures forall m: Member :: Uncertified([m]) == if m.certified then [] else [m.refId]
  {
    if a == [] {
      assert a + b == b;
    } else {
      assert (a + b)[1..] == a[1..] + b;
      UncertifiedAppend(a[1..], b);
    }
  }

  /** Every refusal before the gateway keeps the table, whatever the gateway would say; each has its exact condition. */
  lemma RefusalsExact(t: Table, tenant: string, req: Request, gate: Gate, now: string, key: Option<string>)
    ensures var (after, r) := Compose(t, tenant, req, gate, now, key);
      && (r == Failure(NoMembers) <==> req.members == [])
      && (r.Failure? && r.error.NotCertified? <==> !AllCertified(req.members))
      && (r.Failure? && r.error.NotCertified? ==> r.error.ids == Uncertified(req.members))
      && (r.Failure? && r.error.LicencesRejected? <==>
            req.members != [] && AllCertified(req.members) && Judge(MemberLicences(req.members)) != Compatible)
      && (r.Failure? && r.error.LicencesRejected? ==> r.error.verdict == Judge(MemberLicences(req.members)))
      && (r == Failure(InsufficientTier) <==>
            req.members != [] && AllCertified(req.members) && Judge(MemberLicences(req.members)) == Compatible
            && TooLow(req.authority, req.requiredTier))
      && (!Acceptable(req) ==> after == t && r.Failure?)
  {
    UncertifiedIff(req.members);
    TooLowIff(req.authority, req.requiredTier);
  }

  ghost predicate Acceptable(req: Request) {
    req.members != [] && AllCertified(req.members) && Judge(MemberLicences(req.members)) == Compatible
    && !TooLow(req.authority, req.requiredTier)
  }

  /**
   An acceptable request is governed exactly when the gateway allows it; escalated or denied it leaves a new row
   waiting or denied, without a receipt, and an existing row alone.
   */
  lemma GateDecides(t: Table, tenant: string, req: Request, gate: Gate, now: string, key: Option<string>, id: CompositionId)
    requires Acceptable(req) && id == ComputeId(tenant, req.kind, RefIds(req.members))
    ensures var (after, r) := Compose(t, tenant, req, gate, now, key);
      && after.Keys == t.Keys + {id} && (forall other :: other in t && other != id ==> after[other] == t[other])
      && (after[id].status == Governed <==> gate == Allow || (id in t && t[id].status == Governed))
      && (gate == Allow ==> after[id].document.Receipt? && after[id].document.members == req.members
                            && (r.Success? <==> after[id].tenant == tenant))
      && (gate == Allow && r.Success? ==> r == Success(Emitted(after[id])))
      && (gate == Escalate ==> r == Failure(PendingHitl(id)))
      && (gate == Deny ==> r == Failure(DeniedByGovernance))
      && (gate != Allow && id in t ==> after == t)
      && (gate != Allow && id !in t ==>
            after[id] == Row(tenant, req.kind, req.targetRef, |req.members|, Parked(req.members, req.authority),
                             if gate == Deny then Denied else WaitingHitl))
  {
    UncertifiedIff(req.members);
    TooLowIff(req.authority, req.requiredTier);
  }

  /** What a person's decision does: nothing unless the tenant's row is waiting; then refusal denies it and approval governs it. */
  lemma ResumeExact(t: Table, tenant: string, id: CompositionId, approved: bool, now: string, key: Option<string>)
    ensures var (after, r) := Resume(t, tenant, id, approved, now, key);
      && (r == Failure(NotFound) <==> !(id in t && t[id].tenant == tenant))
      && (r.Failure? && r.error.NotAwaiting? <==> id in t && t[id].tenant == tenant && t[id].status != WaitingHitl)
      && (r.Failure? ==> after == t && (r.error == NotFound || r.error == NotAwaiting(t[id].status)))
      && (r.Success? ==> after.Keys == t.Keys && forall other :: other in t && other != id ==> after[other] == t[other])
      && (r.Success? && !approved ==> r == Success(Rejected(id)) && after[id] == t[id].(status := Denied))
      && (r.Success? && approved ==> r == Success(Emitted(after[id])) && after[id].status == Governed
                                     && after[id] == t[id].(status := Governed, document := after[id].document)
                                     && after[id].document.members == t[id].document.members)
  {
  }

  /** Once denied, no decision of any person changes the row; only a new request that the gateway allows does. */
  lemma DeniedStays(t: Table, c: Call, key: Option<string>, id: CompositionId)
    requires id in t && t[id].status == Denied
    ensures c.ResumeCall? ==> Step(t, c, key) == t || c.id != id
    ensures Step(t, c, key)[id] != t[id] ==> c.ComposeCall? && c.gate == Allow && Acceptable(c.req)
                                             && id == ComputeId(c.tenant, c.req.kind, RefIds(c.req.members))
  {
    if c.ComposeCall? {
      UncertifiedIff(c.req.members);
      TooLowIff(c.req.authority, c.req.requiredTier);
    }
  }

  /** A receipt says of the request what was asked, when, by whom and for whom, and is signed if there is a key. */
  lemma ReceiptSays(tenant: string, req: Request, id: CompositionId, now: string, key: Option<string>)
    ensures var doc := MakeReceipt(tenant, req, id, now, key);
      && doc.Receipt? && doc.members == req.members && doc.signed.membersDigest == req.members
      && doc.signed.tenant == tenant && doc.signed.timestamp == now && doc.signed.kind == req.kind
      && doc.signed.targetRef == req.targetRef && doc.signed.authority == req.authority && doc.signed.compositionId == id
      && multiset(doc.signed.memberIds) == multiset(RefIds(req.members)) && Ascending(StringLeq, doc.signed.memberIds)
      && (key == None <==> doc.signature == None) && doc.signer == key
      && (key != None ==> doc.signature == Some(Signature(key.value, doc.signed)))
      && (Passes(doc) <==> key != None && Judge(MemberLicences(req.members)) == Compatible)
  {
    StringOrder();
    SortSorted(StringLeq, RefIds(req.members));
  }

  // ----- The service -----

  class CompositionGovernanceService {
    const signingKey: Option<string>
    var compositions: Table

    constructor (signingKey: Option<string>)
      ensures compositions == map[] && this.signingKey == signingKey
    {
      this.signingKey := signingKey;
      compositions := map[];
    }

    method ComposeMembers(tenant: string, req: Request, gate: Gate, now: string)
      returns (r: Result<Outcome, CompositionError>)
      modifies this
      ensures (compositions, r) == Compose(old(compositions), tenant, req, gate, now, signingKey)
    {
      if req.members == [] {
        return Failure(NoMembers);
      }
      var uncertified := Uncertified(req.members);
      if uncertified != [] {
        return Failure(NotCertified(uncertified));
      }
      var verdict := Judge(MemberLicences(req.members));
      if verdict != Compatible {
        return Failure(LicencesRejected(verdict));
      }
      if Rank(CallerTier(req.authority)) < Rank(req.requiredTier) {
        return Failure(InsufficientTier);
      }
      var id := ComputeId(tenant, req.kind, RefIds(req.members));
      match gate {
        case Escalate =>
          PersistPending(tenant, req, id, WaitingHitl);
          return Failure(PendingHitl(id));
        case Deny =>
          PersistPending(tenant, req, id, Denied);
          return Failure(DeniedByGovernance);
        case Allow =>
          r := EmitReceipt(tenant, req, id, now);
      }
    }

    method ResumeComposition(tenant: string, id: CompositionId, approved: bool, now: string)
      returns (r: Result<Outcome, CompositionError>)
      modifies this
      ensures (compositions, r) == Resume(old(compositions), tenant, id, approved, now, signingKey)
    {
      var found := Lookup(compositions, tenant, id);
      if found.Failure? {
        return Failure(found.error);
      }
      var row := found.value;
      if row.status != WaitingHitl {
        return Failure(NotAwaiting(row.status));
      }
      if !approved {
        compositions := SetStatus(compositions, tenant, id, Denied);
        return Success(Rejected(id));
      }
      r := EmitReceipt(tenant, Unpark(row), id, now);
    }

    method EmitReceipt(tenant: string, req: Request, id: CompositionId, now: string)
      returns (r: Result<Outcome, CompositionError>)
      modifies this
      ensures compositions == Emit(old(compositions), tenant, req, id, now, signingKey)
      ensures r == Found(Lookup(compositions, tenant, id))
    {
      var doc := MakeReceipt(tenant, req, id, now, signingKey);
      if id in compositions {
        compositions := compositions[id := compositions[id].(document := doc, status := Governed)];
      } else {
        compositions := compositions[id := Row(tenant, req.kind, req.targetRef, |req.members|, doc, Governed)];
      }
      return Found(Lookup(compositions, tenant, id));
    }

    method PersistPending(tenant: string, req: Request, id: CompositionId, status: Status)
      modifies this
      ensures compositions == Park(old(compositions), tenant, req, id, status)
    {
      if id !in compositions {
        var doc := Parked(req.members, req.authority);
        compositions := compositions[id := Row(tenant, req.kind, req.targetRef, |req.members|, doc, status)];
      }
    }

    method Verify(tenant: string, id: CompositionId) returns (r: Result<bool, CompositionError>)
      ensures r == match Lookup(compositions, tenant, id)
                   case Success(row) => Success(Passes(row.document))
                   case Failure(e) => Failure(e)
    {
      var found := Lookup(compositions, tenant, id);
      if found.Failure? {
        return Failure(found.error);
      }
      var doc := found.value.document;
      if doc.Parked? {
        return Success(false);
      }
      var signed := SignatureValid(doc);
      var membersConsistent := doc.members == doc.signed.membersDigest;
      var compatible := doc.signed.verdict == Compatible;
      return Success(signed && membersConsistent && compatible);
    }
  }

  // ----- Whole runs -----

  datatype Call =
    | ComposeCall(tenant: string, req: Request, gate: Gate, now: string)
    | ResumeCall(tenant: string, id: CompositionId, approved: bool, now: string)

  function Step(t: Table, c: Call, key: Option<string>): Table {
    match c
    case ComposeCall(tenant, req, gate, now) => Compose(t, tenant, req, gate, now, key).0
    case ResumeCall(tenant, id, approved, now) => Resume(t, tenant, id, approved, now, key).0
  }

  function Run(calls: seq<Call>, key: Option<string>): Table {
    if calls == [] then map[] else Step(Run(calls[..|calls| - 1], key), calls[|calls| - 1], key)
  }

  ghost predicate Composable(members: seq<Member>) {
    members != [] && Uncertified(members) == [] && Judge(MemberLicences(members)) == Compatible
  }

  /** What every row keeps about its members: the parked ones carry it to the governed ones. */
  ghost predicate Admitted(id: CompositionId, row: Row) {
    && Composable(row.document.members)
    && id == ComputeId(row.tenant, row.kind, RefIds(row.document.members))
  }

  ghost predicate GenuineReceipt(id: CompositionId, doc: Document, key: Option<string>) {
    && doc.Receipt?
    && doc.signed.membersDigest == doc.members
    && doc.signed.memberIds == SortStrings(RefIds(doc.members))
    && doc.signed.verdict == Compatible
    && doc.signed.compositionId == id == ComputeId(doc.signed.tenant, doc.signed.kind, RefIds(doc.members))
    && doc.signer == key && doc.signature == Sign(doc.signed, key)
  }

  ghost predicate Lawful(id: CompositionId, row: Row, key: Option<string>) {
    && Admitted(id, row)
    && (if row.status == Governed then GenuineReceipt(id, row.document, key) else row.document.Parked?)
  }

  ghost predicate Invariant(t: Table, key: Option<string>) {
    forall id :: id in t ==> Lawful(id, t[id], key)
  }

  lemma EmitKeepsInvariant(t: Table, tenant: string, req: Request, id: CompositionId, now: string, key: Option<string>)
    requires Invariant(t, key) && Composable(req.members)
    requires id == ComputeId(tenant, req.kind, RefIds(req.members))
    ensures Invariant(Emit(t, tenant, req, id, now, key), key)
  {
  }

  lemma ParkKeepsInvariant(t: Table, tenant: string, req: Request, id: CompositionId, status: Status, key: Option<string>)
    requires Invariant(t, key) && Composable(req.members) && status != Governed
    requires id == ComputeId(tenant, req.kind, RefIds(req.members))
    ensures Invariant(Park(t, tenant, req, id, status), key)
  {
  }

  lemma ComposeKeepsInvariant(t: Table, tenant: string, req: Request, gate: Gate, now: string, key: Option<string>)
    requires Invariant(t, key) && Refusal(req) == None
    ensures Invariant(Compose(t, tenant, req, gate, now, key).0, key)
  {
    var id := ComputeId(tenant, req.kind, RefIds(req.members));
    match gate {
      case Escalate => ParkKeepsInvariant(t, tenant, req, id, WaitingHitl, key);
      case Deny => ParkKeepsInvariant(t, tenant, req, id, Denied, key);
      case Allow => EmitKeepsInvariant(t, tenant, req, id, now, key);
    }
  }

  lemma ResumeKeepsInvariant(t: Table, tenant: string, id: CompositionId, approved: bool, now: string,
                             key: Option<string>)
    requires Invariant(t, key)
    ensures Invariant(Resume(t, tenant, id, approved, now, key).0, key)
  {
    if Lookup(t, tenant, id).Success? {
      assert Lawful(id, t[id], key);
      EmitKeepsInvariant(t, tenant, Unpark(t[id]), id, now, key);
    }
  }

  lemma StepKeepsInvariant(t: Table, c: Call, key: Option<string>)
    requires Invariant(t, key)
    ensures Invariant(Step(t, c, key), key)
  {
    match c {
      case ComposeCall(tenant, req, gate, now) =>
        if Refusal(req) == None {
          ComposeKeepsInvariant(t, tenant, req, gate, now, key);
        }
      case ResumeCall(tenant, id, approved, now) =>
        ResumeKeepsInvariant(t, tenant, id, approved, now, key);
    }
  }

  lemma {:induction false} RunKeepsInvariant(calls: seq<Call>, key: Option<string>)
    ensures Invariant(Run(calls, key), key)
  {
    if calls != [] {
      RunKeepsInvariant(calls[..|calls| - 1], key);
      StepKeepsInvariant(Run(calls[..|calls| - 1], key), calls[|calls| - 1], key);
    }
  }

  /**
   Over every run of compose and resume by any tenants: a governed row passes verification (given a signing
   key), all its members are certified, its licences are compatible and its key recomputes; and verification
   passes for no other row.
   */
  lemma GovernedRowsVerify(calls: seq<Call>, key: string, id: CompositionId)
    requires id in Run(calls, Some(key))
    ensures var row := Run(calls, Some(key))[id];
      && (Passes(row.document) <==> row.status == Governed)
      && Admitted(id, row)
      && (forall m :: m in row.document.members ==> m.certified)
  {
    RunKeepsInvariant(calls, Some(key));
    UncertifiedIff(Run(calls, Some(key))[id].document.members);
  }

  /** Resuming does not repeat the licence check, yet the receipt it emits always records a compatible verdict. */
  lemma ResumedReceiptsAreCompatible(calls: seq<Call>, key: Option<string>, tenant: string, id: CompositionId,
                                     now: string)
    ensures match Resume(Run(calls, key), tenant, id, true, now, key).1
            case Success(Emitted(row)) => row.document.Receipt? && row.document.signed.verdict == Compatible
                                          && row.status == Governed && row.tenant == tenant
            case Success(Rejected(_)) => false
            case Failure(e) => e == NotFound || e.NotAwaiting?
  {
    RunKeepsInvariant(calls, key);
  }

  /** The only transitions: a governed row stays governed, and becoming governed takes the gate or a human. */
  lemma StatusTransitions(t: Table, c: Call, key: Option<string>, id: CompositionId)
    ensures id in t ==> id in Step(t, c, key)
    ensures id in t && t[id].status == Governed ==> Step(t, c, key)[id].status == Governed
    ensures id in t && t[id].status == Denied && Step(t, c, key)[id].status != Denied ==>
      c.ComposeCall? && c.gate == Allow && Step(t, c, key)[id].status == Governed
    ensures id in Step(t, c, key) && Step(t, c, key)[id].status == Governed
            && (id !in t || t[id].status != Governed) ==>
      || (c.ComposeCall? && c.gate == Allow && id == ComputeId(c.tenant, c.req.kind, RefIds(c.req.members)))
      || (c.ResumeCall? && c.approved && c.id == id && id in t && t[id].status == WaitingHitl && t[id].tenant == c.tenant)
  {
  }

  /**
   A pending answer leaves something to approve exactly when no row had the id before, or the tenant's own row
   was already waiting: an insert over a governed or denied row, or over another tenant's, does nothing. What the
   approval then emits are the members, target and authority that were parked first.
   */
  lemma PendingIsApprovableIff(t: Table, tenant: string, req: Request, now: string, later: string, key: Option<string>)
    requires Refusal(req) == None
    ensures var id := ComputeId(tenant, req.kind, RefIds(req.members));
      var (after, answer) := Compose(t, tenant, req, Escalate, now, key);
      var approval := Resume(after, tenant, id, true, later, key).1;
      && answer == Failure(PendingHitl(id))
      && (approval.Success? <==> id !in t || (t[id].tenant == tenant && t[id].status == WaitingHitl))
      && (approval.Success? ==>
            && approval.value.Emitted?
            && approval.value.row.document == MakeReceipt(tenant, if id in t then Unpark(t[id]) else req, id, later, key))
  {
  }

  /** In a run these have the ids that were asked for, and are the members asked for exactly when those were parked. */
  lemma ApprovedMembers(calls: seq<Call>, tenant: string, req: Request, now: string, later: string, key: Option<string>)
    requires Refusal(req) == None
    ensures var t, id := Run(calls, key), ComputeId(tenant, req.kind, RefIds(req.members));
      match Resume(Compose(t, tenant, req, Escalate, now, key).0, tenant, id, true, later, key).1
      case Failure(_) => true
      case Success(outcome) =>
        && outcome.Emitted?
        && multiset(RefIds(outcome.row.document.members)) == multiset(RefIds(req.members))
        && (outcome.row.document.members == req.members <==> id !in t || t[id].document.members == req.members)
  {
    var t, id := Run(calls, key), ComputeId(tenant, req.kind, RefIds(req.members));
    PendingIsApprovableIff(t, tenant, req, now, later, key);
    RunKeepsInvariant(calls, key);
    if id in t {
      SortStringsCanonical(RefIds(t[id].document.members), RefIds(req.members));
    }
  }

  ghost predicate IsGoverned(t: Table, id: CompositionId) {
    id in t && t[id].status == Governed
  }

  lemma GovernedOneMore(calls: seq<Call>, c: Call, key: Option<string>, id: CompositionId)
    requires IsGoverned(Run(calls, key), id)
    ensures IsGoverned(Run(calls + [c], key), id)
  {
    assert (calls + [c])[..|calls|] == calls;
    StatusTransitions(Run(calls, key), c, key, id);
  }

  /** Once governed, whatever is called next by whomever, a composition stays governed. */
  lemma {:induction false} GovernedIsFinal(before: seq<Call>, after: seq<Call>, key: Option<string>, id: CompositionId)
    requires IsGoverned(Run(before, key), id)
    ensures IsGoverned(Run(before + after, key), id)
    decreases |after|
  {
    if after == [] {
      assert before + after == before;
    } else {
      GovernedOneMore(before, after[0], key, id);
      GovernedIsFinal(before + [after[0]], after[1..], key, id);
      assert before + [after[0]] + after[1..] == before + after;
    }
  }

  // ----- Tenants -----

  /** No tenant in the table can be given a key of `tenant`, or the other way round. */
  ghost predicate SeparateFrom(t: Table, tenant: string) {
    forall id :: id in t && t[id].tenant != tenant ==> Separable(t[id].tenant, tenant)
  }

  lemma OwnKey(t: Table, tenant: string, kind: string, ids: seq<string>, key: Option<string>)
    requires Invariant(t, key) && SeparateFrom(t, tenant)
    ensures var mine := ComputeId(tenant, kind, ids);
      mine in t ==> t[mine].tenant == tenant
  {
    var mine := ComputeId(tenant, kind, ids);
    if mine in t && t[mine].tenant != tenant {
      assert Lawful(mine, t[mine], key);
      JoinInjective(t[mine].tenant, t[mine].kind, tenant, kind);
    }
  }

  lemma ComposeFrame(t: Table, tenant: string, req: Request, gate: Gate, now: string, key: Option<string>,
                     id: CompositionId)
    requires id in t && id != ComputeId(tenant, req.kind, RefIds(req.members))
    ensures id in Compose(t, tenant, req, gate, now, key).0
    ensures Compose(t, tenant, req, gate, now, key).0[id] == t[id]
  {
  }

  lemma ResumeFrame(t: Table, tenant: string, other: CompositionId, approved: bool, now: string, key: Option<string>,
                    id: CompositionId)
    requires id in t && (id != other || t[id].tenant != tenant)
    ensures id in Resume(t, tenant, other, approved, now, key).0
    ensures Resume(t, tenant, other, approved, now, key).0[id] == t[id]
  {
  }

  /** Then no call of that tenant touches anybody else's row. */
  lemma TenantsIsolated(t: Table, c: Call, key: Option<string>, id: CompositionId)
    requires Invariant(t, key) && SeparateFrom(t, c.tenant)
    requires id in t && t[id].tenant != c.tenant
    ensures id in Step(t, c, key) && Step(t, c, key)[id] == t[id]
  {
    match c {
      case ComposeCall(tenant, req, gate, now) =>
        OwnKey(t, tenant, req.kind, RefIds(req.members), key);
        ComposeFrame(t, tenant, req, gate, now, key, id);
      case ResumeCall(tenant, other, approved, now) =>
        ResumeFrame(t, tenant, other, approved, now, key, id);
    }
  }

  /** And its own upsert always finds its own row. */
  lemma OwnUpsertFound(t: Table, tenant: string, req: Request, gate: Gate, now: string, key: Option<string>)
    requires Invariant(t, key) && SeparateFrom(t, tenant)
    ensures Compose(t, tenant, req, gate, now, key).1 != Failure(NotFound)
  {
    OwnKey(t, tenant, req.kind, RefIds(req.members), key);
  }

  lemma {:induction false} RowsBelongToCallers(calls: seq<Call>, key: Option<string>, id: CompositionId)
    requires id in Run(calls, key)
    ensures exists i :: 0 <= i < |calls| && calls[i].tenant == Run(calls, key)[id].tenant
  {
    var last := |calls| - 1;
    var before := Run(calls[..last], key);
    if id in before && before[id].tenant == Run(calls, key)[id].tenant {
      RowsBelongToCallers(calls[..last], key, id);
    } else {
      assert calls[last].tenant == Run(calls, key)[id].tenant;
    }
  }

  /** Over a whole run by pairwise separable tenants, no call ever changes another tenant's row. */
  lemma RunIsolatesTenants(calls: seq<Call>, c: Call, key: Option<string>, id: CompositionId)
    requires forall i :: 0 <= i < |calls| && calls[i].tenant != c.tenant ==> Separable(calls[i].tenant, c.tenant)
    requires id in Run(calls, key) && Run(calls, key)[id].tenant != c.tenant
    ensures id in Run(calls + [c], key) && Run(calls + [c], key)[id] == Run(calls, key)[id]
  {
    var t := Run(calls, key);
    RunKeepsInvariant(calls, key);
    forall other | other in t && t[other].tenant != c.tenant
      ensures Separable(t[other].tenant, c.tenant)
    {
      RowsBelongToCallers(calls, key, other);
    }
    TenantsIsolated(t, c, key, id);
    assert (calls + [c])[..|calls|] == calls;
  }

  /** Tenant t composes, then tenant u: does u's call rewrite t's row? */
  ghost predicate Crosses(t: string, first: Request, u: string, second: Request, key: Option<string>) {
    var table := Compose(map[], t, first, Allow, "0", key).0;
    var id := ComputeId(t, first.kind, RefIds(first.members));
    id in table && Compose(table, u, second, Allow, "1", key).0[id] != table[id]
  }

  lemma CrossingWitness(t: string, x: string, u: string, y: string, members: seq<Member>, authority: Authority,
                        key: Option<string>)
    requires t != u && Join(t, x) == Join(u, y) && Composable(members)
    ensures Crosses(t, Request(x, members, "", authority, "untrusted"), u, Request(y, members, "", authority, "untrusted"), key)
  {
    var first := Request(x, members, "", authority, "untrusted");
    var id := ComputeId(t, x, RefIds(members));
    assert Compose(map[], t, first, Allow, "0", key).0 == Emit(map[], t, first, id, "0", key);
  }

  lemma CrossingNeedsCollision(t: string, first: Request, u: string, second: Request, key: Option<string>)
    requires t != u && Crosses(t, first, u, second, key)
    ensures !Separable(t, u)
  {
    var table := Compose(map[], t, first, Allow, "0", key).0;
    var id := ComputeId(t, first.kind, RefIds(first.members));
    ComposeKeepsInvariant(map[], t, first, Allow, "0", key);
    assert table.Keys == {id} && table[id].tenant == t;
    if Separable(t, u) {
      OwnKey(table, u, second.kind, RefIds(second.members), key);
      ComposeFrame(table, u, second, Allow, "1", key, id);
    }
  }

  /**
   An upsert can cross tenants exactly when the tenant names are not separable: the key joins tenant and kind
   with a separator that either may contain.
   */
  lemma CrossTenantIff(t: string, u: string, members: seq<Member>, authority: Authority, key: Option<string>)
    requires t != u && Composable(members)
    ensures (exists first, second :: Crosses(t, first, u, second, key)) <==> !Separable(t, u)
  {
    CollisionIff(t, u);
    if !Separable(t, u) {
      var x, y :| Join(t, x) == Join(u, y);
      CrossingWitness(t, x, u, y, members, authority, key);
    }
    forall first, second | Crosses(t, first, u, second, key)
      ensures !Separable(t, u)
    {
      CrossingNeedsCollision(t, first, u, second, key);
    }
  }

  // ----- Tamper evidence -----

  /** A stored receipt keeps passing after an edit that keeps signature and signer only if nothing was edited. */
  lemma TamperEvidence(calls: seq<Call>, key: string, id: CompositionId, members: seq<Member>, signed: Signed)
    requires id in Run(calls, Some(key)) && Run(calls, Some(key))[id].status == Governed
    ensures var doc := Run(calls, Some(key))[id].document;
      && doc.Receipt?
      && (Passes(doc.(members := members, signed := signed)) <==> members == doc.members && signed == doc.signed)
  {
    RunKeepsInvariant(calls, Some(key));
  }

  /** A document somebody without the service's key can make of a stored one. */
  predicate MadeOutside(edited: Document, doc: Document, key: string)
    requires edited.Receipt? && doc.Receipt?
  {
    edited.signature == doc.signature || edited.signature.None? || edited.signature.value.key != key
  }

  /** As long as the signer is the service, nothing an outsider edits passes. */
  lemma SignerKept(calls: seq<Call>, key: string, id: CompositionId, edited: Document)
    requires id in Run(calls, Some(key)) && Run(calls, Some(key))[id].status == Governed
    requires Run(calls, Some(key))[id].document.Receipt? && edited.Receipt? && edited.signer == Some(key)
    requires MadeOutside(edited, Run(calls, Some(key))[id].document, key)
    ensures Passes(edited) <==> edited == Run(calls, Some(key))[id].document
  {
    RunKeepsInvariant(calls, Some(key));
  }

  /**
   But the check takes the signer from the document itself: with signature and signer replaced, any members pass
   under any signed fields that carry their digest and a compatible verdict.
   */
  lemma SignerReplacedIff(calls: seq<Call>, key: string, id: CompositionId, members: seq<Member>, signed: Signed)
    requires id in Run(calls, Some(key)) && Run(calls, Some(key))[id].document.Receipt?
    ensures var doc := Run(calls, Some(key))[id].document.(members := members, signed := signed);
      (exists signature, signer :: MadeOutside(doc.(signature := signature, signer := signer), doc, key)
                                   && Passes(doc.(signature := signature, signer := signer)))
      <==> members == signed.membersDigest && signed.verdict == Compatible
  {
    var doc, other := Run(calls, Some(key))[id].document.(members := members, signed := signed), key + "'";
    var forged := Some(Signature(other, signed));
    assert |other| == |key| + 1;
    assert MadeOutside(doc.(signature := forged, signer := Some(other)), doc, key);
    assert Passes(doc.(signature := forged, signer := Some(other))) <==> members == signed.membersDigest && signed.verdict == Compatible;
  }
}
