/**
 The provenance customs service: the Article-10 inspection, sealing a corpus into a Merkle root, the
 table the seals are upserted into, and the verification and inclusion proofs read back from it.

 Hashes over canonical JSON are the hashed records themselves (an injective hash), a signature is the pair
 of the signing key and the signed receipt (an ideal signature), and the clock is a parameter.
 */
module ProvenanceCustoms {
  import opened Wrappers
  import opened MerkleTree
  import opened UnitSeparator

  datatype Attestations = Attestations(representativeness: Option<string>, biasExamination: Option<string>,
                                       dataGaps: Option<string>)

  datatype Request = Request(name: string, sources: seq<Source>, attestations: Attestations,
                             processing: string, metadata: string)

  /** BLAKE2b over tenant US name US root: the root is the hex part after the last separator. */
  datatype CorpusId = CorpusId(owner: string, root: Digest)

  function ComputeCorpusId(tenant: string, name: string, root: Digest): CorpusId {
    CorpusId(Join(tenant, name), root)
  }

  datatype CorpusHash = CorpusHash(name: string, sources: seq<Source>, processing: string,
                                   attestations: Attestations, root: Digest)

  /** The signed fields. `sourcesDigest` is among them, the sources themselves are not. */
  datatype Receipt = Receipt(tenant: string, timestamp: string, name: string, sourcesDigest: seq<Source>,
                             root: Digest, corpusHash: CorpusHash, attestations: Attestations,
                             clearance: string, corpusId: CorpusId)

  datatype Signature = Signature(key: string, receipt: Receipt)

  datatype Document = Document(receipt: Receipt, sources: seq<Source>, processing: string, metadata: string,
                               signature: Option<Signature>, signer: Option<string>)

  datatype Row = Row(tenant: string, name: string, root: Digest, corpusHash: CorpusHash, sourceCount: nat,
                     clearance: string, document: Document, status: string)

  type Table = map<CorpusId, Row>

  datatype Reason = NoBasis(id: Option<string>) | NoRepresentativeness | NoBiasExamination | DeniedByGovernance

  datatype CustomsError = NoSources | Rejected(reasons: seq<Reason>) | NotFound

  // ----- Article-10 inspection -----

  predicate Truthy(v: Option<string>) { v.Some? && v.value != "" }

  predicate HasBasis(s: Source) { Truthy(s.license) || Truthy(s.lawfulBasis) }

  function MissingBasis(sources: seq<Source>): seq<Reason> {
    if sources == [] then []
    else (if HasBasis(sources[0]) then [] else [NoBasis(sources[0].id)]) + MissingBasis(sources[1..])
  }

  function Article10(sources: seq<Source>, a: Attestations): seq<Reason> {
    MissingBasis(sources)
    + (if Truthy(a.representativeness) then [] else [NoRepresentativeness])
    + (if Truthy(a.biasExamination) then [] else [NoBiasExamination])
  }

  method Article10Reasons(sources: seq<Source>, a: Attestations) returns (reasons: seq<Reason>)
    ensures reasons == Article10(sources, a)
  {
    reasons := [];
    for i := 0 to |sources|
      invariant reasons == MissingBasis(sources[..i])
    {
      MissingBasisSnoc(sources[..i], sources[i]);
      assert sources[..i + 1] == sources[..i] + [sources[i]];
      if !HasBasis(sources[i]) {
        reasons := reasons + [NoBasis(sources[i].id)];
      }
    }
    assert sources[..|sources|] == sources;
    if !Truthy(a.representativeness) {
      reasons := reasons + [NoRepresentativeness];
    }
    if !Truthy(a.biasExamination) {
      reasons := reasons + [NoBiasExamination];
    }
  }

  ghost predicate Cleared(sources: seq<Source>, a: Attestations) {
    && (forall s :: s in sources ==> HasBasis(s))
    && Truthy(a.representativeness) && Truthy(a.biasExamination)
  }

  /** No reasons exactly when every source has a basis and both attestations are given. */
  lemma {:induction false} ClearedIff(sources: seq<Source>, a: Attestations)
    ensures Article10(sources, a) == [] <==> Cleared(sources, a)
  {
    if sources != [] {
      ClearedIff(sources[1..], a);
      assert sources == [sources[0]] + sources[1..];
    }
  }

  // ----- Sealing -----

  function Seal(tenant: string, req: Request, now: string, key: Option<string>): Document {
    var root := Root(LeafHashes(req.sources));
    var receipt := Receipt(tenant, now, req.name, req.sources, root,
                           CorpusHash(req.name, req.sources, req.processing, req.attestations, root),
                           req.attestations, "cleared", ComputeCorpusId(tenant, req.name, root));
    Document(receipt, req.sources, req.processing, req.metadata,
             if key.Some? then Some(Signature(key.value, receipt)) else None, key)
  }

  /** INSERT ... ON CONFLICT (corpus_id) DO UPDATE: only the document (and its signature) is replaced. */
  function Upsert(t: Table, id: CorpusId, row: Row): Table {
    if id in t then t[id := t[id].(document := row.document)] else t[id := row]
  }

  function Lookup(t: Table, tenant: string, id: CorpusId): Result<Row, CustomsError> {
    if id in t && t[id].tenant == tenant then Success(t[id]) else Failure(NotFound)
  }

  /** `allowed` is the gateway's answer (true when there is no gateway), `now` the clock. */
  function Register(t: Table, tenant: string, req: Request, allowed: bool, now: string, key: Option<string>)
    : (Table, Result<Row, CustomsError>)
  {
    if req.sources == [] then (t, Failure(NoSources))
    else if Article10(req.sources, req.attestations) != [] then
      (t, Failure(Rejected(Article10(req.sources, req.attestations))))
    else if !allowed then (t, Failure(Rejected([DeniedByGovernance])))
    else
      var doc := Seal(tenant, req, now, key);
      var id := doc.receipt.corpusId;
      var row := Row(tenant, req.name, doc.receipt.root, doc.receipt.corpusHash, |req.sources|, "cleared", doc, "sealed");
      var after := Upsert(t, id, row);
      (after, Lookup(after, tenant, id))
  }

  predicate SignatureValid(doc: Document) {
    doc.signature.Some? && doc.signer.Some?
    && doc.signature.value == Signature(doc.signer.value, doc.receipt)
  }

  predicate MerkleConsistent(doc: Document) {
    Root(LeafHashes(doc.sources)) == doc.receipt.root
  }

  predicate Passes(doc: Document) {
    SignatureValid(doc) && MerkleConsistent(doc) && doc.receipt.clearance == "cleared"
  }

  datatype Inclusion = NotIncluded | Included(verified: bool, leaf: Digest, proof: seq<ProofStep>)

  class ProvenanceCustomsService {
    const signingKey: Option<string>
    var corpora: Table

    constructor (signingKey: Option<string>)
      ensures corpora == map[] && this.signingKey == signingKey
    {
      this.signingKey := signingKey;
      corpora := map[];
    }

    method RegisterCorpus(tenant: string, req: Request, allowed: bool, now: string)
      returns (r: Result<Row, CustomsError>)
      modifies this
      ensures (corpora, r) == Register(old(corpora), tenant, req, allowed, now, signingKey)
    {
      if req.sources == [] {
        return Failure(NoSources);
      }
      var reasons := Article10Reasons(req.sources, req.attestations);
      if reasons != [] {
        return Failure(Rejected(reasons));
      }
      if !allowed {
        return Failure(Rejected([DeniedByGovernance]));
      }
      var root := MerkleRoot(LeafHashes(req.sources));
      var id := ComputeCorpusId(tenant, req.name, root);
      var doc := Seal(tenant, req, now, signingKey);
      corpora := Upsert(corpora, id, Row(tenant, req.name, root, doc.receipt.corpusHash, |req.sources|,
                                         "cleared", doc, "sealed"));
      return Lookup(corpora, tenant, id);
    }

    method VerifyCorpus(tenant: string, id: CorpusId) returns (r: Result<bool, CustomsError>)
      ensures r == match Lookup(corpora, tenant, id)
                   case Success(row) => Success(Passes(row.document))
                   case Failure(e) => Failure(e)
    {
      var row := Lookup(corpora, tenant, id);
      if row.Failure? {
        return Failure(row.error);
      }
      var doc := row.value.document;
      var recomputed := MerkleRoot(LeafHashes(doc.sources));
      return Success(SignatureValid(doc) && recomputed == doc.receipt.root && doc.receipt.clearance == "cleared");
    }

    method InclusionProof(tenant: string, id: CorpusId, sourceId: string) returns (r: Result<Inclusion, CustomsError>)
      ensures r == match Lookup(corpora, tenant, id)
                   case Success(row) => Success(InclusionOf(row.document, sourceId))
                   case Failure(e) => Failure(e)
    {
      var row := Lookup(corpora, tenant, id);
      if row.Failure? {
        return Failure(row.error);
      }
      var doc := row.value.document;
      var idx := FirstWithId(doc.sources, sourceId);
      if idx == |doc.sources| {
        return Success(NotIncluded);
      }
      var leaves := LeafHashes(doc.sources);
      var proof := MerkleProof(leaves, idx);
      var ok := VerifyMerkleProof(leaves[idx], proof.value, doc.receipt.root);
      return Success(Included(ok, leaves[idx], proof.value));
    }
  }

  function FirstWithId(sources: seq<Source>, id: string): (i: nat)
    ensures i <= |sources|
    ensures i < |sources| ==> sources[i].id == Some(id)
    ensures forall k :: 0 <= k < i ==> sources[k].id != Some(id)
  {
    if sources == [] then 0
    else if sources[0].id == Some(id) then 0
    else 1 + FirstWithId(sources[1..], id)
  }

  function InclusionOf(doc: Document, sourceId: string): Inclusion {
    var idx, leaves := FirstWithId(doc.sources, sourceId), LeafHashes(doc.sources);
    if idx == |doc.sources| then NotIncluded
    else
      var proof := ProofFor(leaves, idx);
      Included(Accepts(leaves[idx], proof, doc.receipt.root), leaves[idx], proof)
  }

  // ----- Whole runs -----

  datatype Call = Call(tenant: string, req: Request, allowed: bool, now: string)

  function Run(calls: seq<Call>, key: Option<string>): Table {
    if calls == [] then map[]
    else
      var c := calls[|calls| - 1];
      Register(Run(calls[..|calls| - 1], key), c.tenant, c.req, c.allowed, c.now, key).0
  }

  ghost predicate Genuine(id: CorpusId, row: Row, key: Option<string>) {
    var doc := row.document;
    && doc.sources != []
    && Cleared(doc.sources, doc.receipt.attestations)
    && MerkleConsistent(doc)
    && doc.receipt.clearance == "cleared"
    && doc.receipt.sourcesDigest == doc.sources
    && doc.receipt.corpusHash == CorpusHash(doc.receipt.name, doc.sources, doc.processing,
                                            doc.receipt.attestations, doc.receipt.root)
    && doc.receipt.corpusId == id == ComputeCorpusId(doc.receipt.tenant, doc.receipt.name, doc.receipt.root)
    && id == ComputeCorpusId(row.tenant, row.name, row.root)
    && doc.signer == key
    && doc.signature == (if key.Some? then Some(Signature(key.value, doc.receipt)) else None)
  }

  /** Every row any sequence of calls leaves behind is a genuine, cleared seal under its own key. */
  lemma {:induction false} RunGenuine(calls: seq<Call>, key: Option<string>)
    ensures forall id :: id in Run(calls, key) ==> Genuine(id, Run(calls, key)[id], key)
  {
    if calls != [] {
      var c := calls[|calls| - 1];
      RunGenuine(calls[..|calls| - 1], key);
      ClearedIff(c.req.sources, c.req.attestations);
    }
  }

  /** With a signing key, every sealed corpus verifies. */
  lemma SealedCorporaVerify(calls: seq<Call>, key: string, id: CorpusId)
    requires id in Run(calls, Some(key))
    ensures Passes(Run(calls, Some(key))[id].document)
  {
    RunGenuine(calls, Some(key));
  }

  /** A source id is answered with a verified proof exactly when a sealed source carries it. */
  lemma InclusionIff(calls: seq<Call>, key: Option<string>, id: CorpusId, sourceId: string)
    requires id in Run(calls, key)
    ensures var doc := Run(calls, key)[id].document;
      match InclusionOf(doc, sourceId)
      case NotIncluded => forall s :: s in doc.sources ==> s.id != Some(sourceId)
      case Included(verified, leaf, _) => verified && leaf.Leaf? && leaf.source in doc.sources
                                          && leaf.source.id == Some(sourceId)
  {
    RunGenuine(calls, key);
    var doc := Run(calls, key)[id].document;
    var idx := FirstWithId(doc.sources, sourceId);
    if idx < |doc.sources| {
      MerkleCompleteness(LeafHashes(doc.sources), idx);
    }
  }

  /** No proof whatsoever places a source under a sealed root that does not seal it. */
  lemma NoForgedInclusion(calls: seq<Call>, key: Option<string>, id: CorpusId, s: Source, proof: seq<ProofStep>)
    requires id in Run(calls, key)
    requires Accepts(Leaf(s), proof, Run(calls, key)[id].document.receipt.root)
    ensures s in Run(calls, key)[id].document.sources
  {
    RunGenuine(calls, key);
    var leaves := LeafHashes(Run(calls, key)[id].document.sources);
    MerkleSoundness(Leaf(s), proof, leaves);
    var i :| 0 <= i < |leaves| && leaves[i] == Leaf(s);
  }

  /** The padded leaves of the stored sources; there are none to pad without sources. */
  predicate SamePaddedLeaves(a: seq<Source>, b: seq<Source>) {
    a != [] && b != [] && Padded(LeafHashes(a)) == Padded(LeafHashes(b))
  }

  lemma SameRootIff(sources: seq<Source>, sealed: seq<Source>)
    requires sealed != []
    ensures Root(LeafHashes(sources)) == Root(LeafHashes(sealed)) <==> SamePaddedLeaves(sources, sealed)
    ensures |sources| == |sealed| ==> (SamePaddedLeaves(sources, sealed) <==> sources == sealed)
  {
    var xs, ys := LeafHashes(sources), LeafHashes(sealed);
    RootDetermines(ys, xs);
    if xs == ys {
      LeafHashesInjective(sources, sealed);
    }
  }

  /**
   Exactly which edits of the stored sources go unnoticed: those that leave the padded leaf list as it was.
   The signature check alone never notices, since the sources are not among the signed fields.
   */
  lemma TamperedSources(calls: seq<Call>, key: string, id: CorpusId, sources: seq<Source>)
    requires id in Run(calls, Some(key))
    ensures var doc := Run(calls, Some(key))[id].document;
      var edited := doc.(sources := sources);
      && SignatureValid(edited)
      && (Passes(edited) <==> SamePaddedLeaves(sources, doc.sources))
      && (|sources| == |doc.sources| ==> (Passes(edited) <==> sources == doc.sources))
  {
    RunGenuine(calls, Some(key));
    SameRootIff(sources, Run(calls, Some(key))[id].document.sources);
  }

  /** Any edit of a signed field is noticed as long as the stored signature and signer are kept. */
  lemma TamperedReceipt(calls: seq<Call>, key: string, id: CorpusId, receipt: Receipt)
    requires id in Run(calls, Some(key))
    ensures var doc := Run(calls, Some(key))[id].document;
      SignatureValid(doc.(receipt := receipt)) <==> receipt == doc.receipt
  {
    RunGenuine(calls, Some(key));
  }

  /** A document somebody without the service's key can make of a stored one. */
  predicate MadeOutside(edited: Document, doc: Document, key: string) {
    edited.signature == doc.signature || edited.signature.None? || edited.signature.value.key != key
  }

  /** As long as the signer is the service, an outsider gets only the padding edits of the sources past the check. */
  lemma SignerKept(calls: seq<Call>, key: string, id: CorpusId, edited: Document)
    requires id in Run(calls, Some(key))
    requires edited.signer == Some(key) && MadeOutside(edited, Run(calls, Some(key))[id].document, key)
    ensures var doc := Run(calls, Some(key))[id].document;
      Passes(edited) <==> edited.signature == doc.signature && edited.receipt == doc.receipt
                          && SamePaddedLeaves(edited.sources, doc.sources)
  {
    RunGenuine(calls, Some(key));
    SameRootIff(edited.sources, Run(calls, Some(key))[id].document.sources);
  }

  /**
   But the check takes the signer from the document itself: with signature and signer replaced, any cleared
   receipt and sources that agree on the root pass.
   */
  lemma SignerReplacedIff(calls: seq<Call>, key: string, id: CorpusId, receipt: Receipt, sources: seq<Source>)
    requires id in Run(calls, Some(key))
    ensures var doc := Run(calls, Some(key))[id].document.(receipt := receipt, sources := sources);
      (exists signature, signer :: MadeOutside(doc.(signature := signature, signer := signer), doc, key)
                                   && Passes(doc.(signature := signature, signer := signer)))
      <==> Root(LeafHashes(sources)) == receipt.root && receipt.clearance == "cleared"
  {
    var doc, other := Run(calls, Some(key))[id].document.(receipt := receipt, sources := sources), key + "'";
    var forged := Some(Signature(other, receipt));
    assert |other| == |key| + 1;
    assert MadeOutside(doc.(signature := forged, signer := Some(other)), doc, key);
    assert Passes(doc.(signature := forged, signer := Some(other))) <==> MerkleConsistent(doc) && receipt.clearance == "cleared";
  }

  /**
   Sealing again under an existing id replaces the document but none of the other columns, so the count
   column describes the document exactly when the two corpora have the same number of sources.
   */
  lemma ResealKeepsColumns(t: Table, tenant: string, req: Request, now: string, key: Option<string>)
    requires req.sources != [] && Article10(req.sources, req.attestations) == []
    ensures var id := Seal(tenant, req, now, key).receipt.corpusId;
      var (after, r) := Register(t, tenant, req, true, now, key);
      && after.Keys == t.Keys + {id}
      && (forall other :: other in t && other != id ==> after[other] == t[other])
      && after[id].document == Seal(tenant, req, now, key)
      && (id in t ==> after[id] == t[id].(document := after[id].document))
      && (id !in t ==> after[id].tenant == tenant && after[id].sourceCount == |req.sources|)
      && (r.Success? <==> after[id].tenant == tenant)
      && (id in t ==> (after[id].sourceCount == |after[id].document.sources| <==> t[id].sourceCount == |req.sources|))
  {
  }

  /** And the lengths can differ, because a hand-padded corpus has the root, and so the id, of the original. */
  lemma CountColumnCanBeStale(a: Source, b: Source, c: Source, att: Attestations, now: string, key: Option<string>)
    requires Cleared([a, b, c], att)
    ensures var first := Request("corpus", [a, b, c], att, "", "");
      var second := first.(sources := [a, b, c, c]);
      var calls := [Call("acme", first, true, now), Call("acme", second, true, now)];
      var id := Seal("acme", first, now, key).receipt.corpusId;
      && id in Run(calls, key)
      && Run(calls, key)[id].sourceCount == 3
      && |Run(calls, key)[id].document.sources| == 4
  {
    var first := Request("corpus", [a, b, c], att, "", "");
    var second := first.(sources := [a, b, c, c]);
    LengthsCanCoincide(a, b, c);
    ClearedIff([a, b, c], att);
    ClearedIff([a, b, c, c], att);
    var calls := [Call("acme", first, true, now), Call("acme", second, true, now)];
    assert calls[..1] == [calls[0]] && calls[..1][..0] == [];
    assert Run(calls[..1], key) == Register(map[], "acme", first, true, now, key).0;
    assert Run(calls, key) == Register(Run(calls[..1], key), "acme", second, true, now, key).0;
    var id := Seal("acme", first, now, key).receipt.corpusId;
    ResealKeepsColumns(map[], "acme", first, now, key);
    ResealKeepsColumns(Run(calls[..1], key), "acme", second, now, key);
  }

  // ----- Tenants -----

  ghost predicate Called(calls: seq<Call>, tenant: string) {
    exists i :: 0 <= i < |calls| && calls[i].tenant == tenant
  }

  lemma {:induction false} RowsBelongToCallers(calls: seq<Call>, key: Option<string>, id: CorpusId)
    requires id in Run(calls, key)
    ensures Called(calls, Run(calls, key)[id].tenant) && Called(calls, Run(calls, key)[id].document.receipt.tenant)
  {
    var last := |calls| - 1;
    var before, after := Run(calls[..last], key), Run(calls, key);
    assert Called(calls, calls[last].tenant);
    if id in before {
      RowsBelongToCallers(calls[..last], key, id);
    }
  }

  ghost predicate PairwiseSeparable(calls: seq<Call>) {
    forall t, u :: Called(calls, t) && Called(calls, u) && t != u ==> Separable(t, u)
  }

  /** In a run by pairwise separable tenants every row serves a receipt of its own tenant. */
  lemma OwnReceipts(calls: seq<Call>, key: Option<string>, id: CorpusId)
    requires PairwiseSeparable(calls) && id in Run(calls, key)
    ensures var row := Run(calls, key)[id]; row.document.receipt.tenant == row.tenant && row.document.receipt.name == row.name
  {
    var row := Run(calls, key)[id];
    RunGenuine(calls, key);
    RowsBelongToCallers(calls, key, id);
    var t, u := row.document.receipt.tenant, row.tenant;
    if t != u {
      JoinInjective(t, row.document.receipt.name, u, row.name);
    }
    SameTenantSameName(t, row.document.receipt.name, row.name);
  }

  lemma SameTenantSameName(t: string, x: string, y: string)
    ensures Join(t, x) == Join(t, y) ==> x == y
  {
    assert Join(t, x)[|t| + 1..] == x && Join(t, y)[|t| + 1..] == y;
  }

  /** And no call changes a row of another tenant. */
  lemma RunIsolatesTenants(calls: seq<Call>, c: Call, key: Option<string>, id: CorpusId)
    requires forall i :: 0 <= i < |calls| && calls[i].tenant != c.tenant ==> Separable(calls[i].tenant, c.tenant)
    requires id in Run(calls, key) && Run(calls, key)[id].tenant != c.tenant
    ensures id in Run(calls + [c], key) && Run(calls + [c], key)[id] == Run(calls, key)[id]
  {
    var t := Run(calls, key);
    var row := t[id];
    assert id.owner == Join(row.tenant, row.name) by {
      RunGenuine(calls, key);
    }
    assert Separable(row.tenant, c.tenant) by {
      RowsBelongToCallers(calls, key, id);
    }
    if id.owner == Join(c.tenant, c.req.name) {
      JoinInjective(row.tenant, row.name, c.tenant, c.req.name);
    }
    RegisterFrame(t, c, key, id);
    assert (calls + [c])[..|calls|] == calls;
  }

  lemma RegisterFrame(t: Table, c: Call, key: Option<string>, id: CorpusId)
    requires id in t && id.owner != Join(c.tenant, c.req.name)
    ensures id in Register(t, c.tenant, c.req, c.allowed, c.now, key).0
    ensures Register(t, c.tenant, c.req, c.allowed, c.now, key).0[id] == t[id]
  {
  }

  /** Tenant t seals a corpus, then tenant u does: does u's call rewrite t's row? */
  ghost predicate Crosses(t: string, first: Request, u: string, second: Request, key: Option<string>) {
    var calls := [Call(t, first, true, "0")];
    var id := Seal(t, first, "0", key).receipt.corpusId;
    && id in Run(calls, key)
    && Run(calls + [Call(u, second, true, "1")], key)[id] != Run(calls, key)[id]
  }

  lemma CrossingWitness(t: string, x: string, u: string, y: string, first: Request, second: Request, key: Option<string>)
    requires t != u && Join(t, x) == Join(u, y) && first.sources != [] && Article10(first.sources, first.attestations) == []
    requires first.name == x && second == first.(name := y)
    ensures Crosses(t, first, u, second, key)
  {
    var calls, c := [Call(t, first, true, "0")], Call(u, second, true, "1");
    var id := Seal(t, first, "0", key).receipt.corpusId;
    assert calls[..0] == [] && (calls + [c])[..1] == calls;
    assert Run(calls, key) == Register(map[], t, first, true, "0", key).0;
    assert Run(calls + [c], key) == Register(Run(calls, key), u, second, true, "1", key).0;
    assert Run(calls, key)[id].document.receipt.timestamp == "0";
    assert Run(calls + [c], key)[id].document.receipt.timestamp == "1";
  }

  lemma CrossingNeedsCollision(t: string, first: Request, u: string, second: Request, key: Option<string>)
    requires t != u && Crosses(t, first, u, second, key)
    ensures !Separable(t, u)
  {
    var calls, c := [Call(t, first, true, "0")], Call(u, second, true, "1");
    var id := Seal(t, first, "0", key).receipt.corpusId;
    RowsBelongToCallers(calls, key, id);
    if Separable(t, u) {
      RunIsolatesTenants(calls, c, key, id);
    }
  }

  /** A registration can rewrite the document of another tenant's row exactly when the tenant names are not separable. */
  lemma CrossTenantIff(t: string, u: string, sources: seq<Source>, att: Attestations, key: Option<string>)
    requires t != u && sources != [] && Cleared(sources, att)
    ensures (exists first, second :: Crosses(t, first, u, second, key)) <==> !Separable(t, u)
  {
    CollisionIff(t, u);
    ClearedIff(sources, att);
    if !Separable(t, u) {
      var x, y :| Join(t, x) == Join(u, y);
      var first := Request(x, sources, att, "", "");
      CrossingWitness(t, x, u, y, first, first.(name := y), key);
    }
    forall first, second | Crosses(t, first, u, second, key)
      ensures !Separable(t, u)
    {
      CrossingNeedsCollision(t, first, u, second, key);
    }
  }

  // ----- Every answer, exactly -----

  /** Some text that is not empty. */
  ghost predicate Given(v: Option<string>) { v != None && v != Some("") }

  /** Each source has a licence or a lawful basis, either alone is enough, and both attestations were given. */
  ghost predicate Clearable(req: Request) {
    && (forall i :: 0 <= i < |req.sources| ==> Given(req.sources[i].license) || Given(req.sources[i].lawfulBasis))
    && Given(req.attestations.representativeness) && Given(req.attestations.biasExamination)
  }

  /** One reason per source without a basis, in order, naming the source. */
  lemma {:induction false} MissingBasisSnoc(sources: seq<Source>, s: Source)
    ensures MissingBasis([]) == []
    ensures MissingBasis(sources + [s]) ==
      MissingBasis(sources) + (if Given(s.license) || Given(s.lawfulBasis) then [] else [NoBasis(s.id)])
  {
    if sources == [] {
      assert [] + [s] == [s] && [s][1..] == [];
    } else {
      assert (sources + [s])[1..] == sources[1..] + [s];
      MissingBasisSnoc(sources[1..], s);
    }
  }

  /** The reasons: one per source without a basis, naming it, then one per missing attestation. */
  lemma ReasonsAre(sources: seq<Source>, a: Attestations)
    ensures Article10(sources, a) == MissingBasis(sources)
      + (if Given(a.representativeness) then [] else [NoRepresentativeness])
      + (if Given(a.biasExamination) then [] else [NoBiasExamination])
  {
  }

  /** Registration refuses, keeping the table, exactly for an empty list, uncleared data or a denial; else it seals. */
  lemma RegisterExact(t: Table, tenant: string, req: Request, allowed: bool, now: string, key: Option<string>)
    ensures var (after, r) := Register(t, tenant, req, allowed, now, key);
      && (r == Failure(NoSources) <==> req.sources == [])
      && (r == Failure(Rejected(Article10(req.sources, req.attestations))) <==> req.sources != [] && !Clearable(req))
      && (r == Failure(Rejected([DeniedByGovernance])) <==> req.sources != [] && Clearable(req) && !allowed)
      && (!(req.sources != [] && Clearable(req) && allowed) ==> after == t && r.Failure?)
      && (req.sources != [] && Clearable(req) && allowed ==>
            var doc := Seal(tenant, req, now, key);
            var id := doc.receipt.corpusId;
            && after.Keys == t.Keys + {id}
            && (id !in t ==> after[id] == Row(tenant, req.name, doc.receipt.root, doc.receipt.corpusHash, |req.sources|,
                                              "cleared", doc, "sealed"))
            && (r.Failure? ==> r.error == NotFound))
  {
    ClearedIff(req.sources, req.attestations);
    assert forall i :: 0 <= i < |req.sources| ==> req.sources[i] in req.sources;
    NoDenialAmongReasons(req.sources, req.attestations);
  }

  lemma {:induction false} NoDenialAmongReasons(sources: seq<Source>, a: Attestations)
    ensures DeniedByGovernance !in MissingBasis(sources) && DeniedByGovernance !in Article10(sources, a)
  {
    if sources != [] {
      NoDenialAmongReasons(sources[1..], a);
    }
  }

  /** A seal records the request as it came, for whom and when, with the digest of these sources and their root. */
  lemma SealSays(tenant: string, req: Request, now: string, key: Option<string>)
    ensures var doc := Seal(tenant, req, now, key); var root := Root(LeafHashes(req.sources));
      && doc.sources == req.sources && doc.processing == req.processing && doc.metadata == req.metadata && doc.signer == key
      && doc.receipt.tenant == tenant && doc.receipt.timestamp == now && doc.receipt.name == req.name
      && doc.receipt.sourcesDigest == req.sources && doc.receipt.root == root && doc.receipt.attestations == req.attestations
      && doc.receipt.clearance == "cleared"
      && doc.receipt.corpusHash == CorpusHash(req.name, req.sources, req.processing, req.attestations, root)
      && doc.receipt.corpusId == CorpusId(Join(tenant, req.name), root)
      && (key == None <==> doc.signature == None)
      && (key != None ==> doc.signature == Some(Signature(key.value, doc.receipt)))
      && (Passes(doc) <==> key != None)
  {
  }

  /** A corpus is answered to the tenant of its row and to nobody else. */
  lemma LookupIff(t: Table, tenant: string, id: CorpusId)
    ensures Lookup(t, tenant, id) == Failure(NotFound) <==> id !in t || t[id].tenant != tenant
    ensures Lookup(t, tenant, id).Success? ==> Lookup(t, tenant, id).value == t[id]
  {
  }

  /** The call was one that seals, and this is what it sealed. */
  ghost predicate SealedBy(c: Call, id: CorpusId, doc: Document, key: Option<string>) {
    c.req.sources != [] && Clearable(c.req) && c.allowed
    && doc == Seal(c.tenant, c.req, c.now, key) && id == doc.receipt.corpusId
  }

  /** Every document in the table is the seal of one of the calls, stored under its own id. */
  lemma {:induction false} RowsAreSeals(calls: seq<Call>, key: Option<string>, id: CorpusId)
    requires id in Run(calls, key)
    ensures exists c :: c in calls && SealedBy(c, id, Run(calls, key)[id].document, key)
  {
    var front, c := calls[..|calls| - 1], calls[|calls| - 1];
    RegisterExact(Run(front, key), c.tenant, c.req, c.allowed, c.now, key);
    assert forall d :: d in front ==> d in calls;
    if id in Run(front, key) && Run(front, key)[id].document == Run(calls, key)[id].document {
      RowsAreSeals(front, key, id);
    } else {
      assert c in calls && SealedBy(c, id, Run(calls, key)[id].document, key);
    }
  }
}
