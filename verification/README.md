# Verified model of GRAFOMEM's custody, scoring and ledger procedures

A Dafny model of the parts of the repository whose answers other parts rely on, and proofs of what they
promise. One module per source file or component; `dafny verify dfyconfig.toml` checks them all.

| module | what it models |
|---|---|
| `MerkleTree`, `ProvenanceCustoms` | the customs service: Article-10 inspection, sealing a corpus into a Merkle root, the upserted table of seals, verification and inclusion proofs; the second Merkle loop of the live-flight script |
| `Framing`, `GfmCodec` | the `.gfm` codec: byte framing, row-major tensors, authentication before interpretation, content identity |
| `LinearRead` | read, merge and feasibility of linear memories over real matrices |
| `Licences`, `CompositionGovernance`, `UnitSeparator` | the composition table driven by compose, escalate, approve and reject; the separator-joined keys both services use |
| `EvidenceScoring` | CGR-v1: Beta posteriors with calibrated reviewer weights |
| `CrossSessionReplay` | the W9 replay against clusters with propagating or session-local deletes, and its scoring |
| `FindingRegistry` | the numbered findings: validator, next id, locks |
| `TenantTeardown` | the walk, the plan, the gates and the one-transaction teardown |
| `ContextReencryption` | the at-rest migration, its backup file and its null logic |
| `CorpusHash` | trace hashes, corpus hash and per-workload rollups |
| `Slugs`, `LedgerIngestion` | references derived from free text, and the posting of ledgers with a local manifest |
| `ConflictClassifier` | the W7 classes and the verdict over replays |
| `ContinuesCeremony` | the four-precondition ceremony as one call and as separate check and write steps |
| `Sorting`, `Ascii`, `Wrappers` | `sorted` as a canonical form; lower case; Option and Result |

Code that updates state in the source is a class or a method with a loop here, proved against a function of
its inputs or of the old state; the main results are lemmas about those functions, over all inputs, all runs
or all schedules.

## Idealisations

- A hash is injective: it is modelled by its preimage or, for the Merkle tree, by a free algebra with one
  constructor per prefix (0x00, 0x01, 0x02). Where a digest has to be a fixed-width string (trace hashes) it is
  an arbitrary function of that width, and a collision is excluded only where a lemma says so.
- A signature is the pair of key and signed fields; in the codec it is any scheme that produces 64 bytes and
  verifies what it signed. That a signature fits no other key and no other bytes is a hypothesis of the lemmas that
  need it (`GfmCodec.Binding`); that nobody makes one under the service key is one of `SignerKept`.
- JSON is an encoder with an inverse, `float32` a four-byte word, floating-point arithmetic is over the reals.
- Clock, gateway answers, registry answers, embedder and encryptor are parameters. A database is a map or a
  sequence owned by one writer; statements that may fail are counted against a `failsAt` parameter.

## What turned out not to hold, and exactly when it does

- Equal Merkle roots do not imply equal corpora: `LengthsCanCoincide`; they do for equal lengths, and in general
  exactly for equal padded lists (`RootDetermines`). As the corpus id hashes the root, a second registration can
  overwrite the document of the first and leave `source_count` stale (`CountColumnCanBeStale`).
- The self-conformance gate P4 (`r2/provenance_customs_self_conformance.py`) expects both the signature and the
  Merkle check to reject an edited source. The signed fields do not include the sources, so the signature check
  alone never notices; the Merkle check does, exactly as `TamperedSources` says. The model follows the code.
- Composition rows are isolated between tenants exactly when the tenant names are separable: the key joins
  tenant and kind with a unit separator that nothing keeps out of either (`CompositionGovernance.CrossTenantIff`).
- The content hash does not survive transport for a payload of another type that carries a matrix as well
  (`HashSurvives`), and such a state does not come back as itself (`RoundTrip`).
- The finding validator accepts numbers that are not positive (`ZeroIsAccepted`), and its identity joins fields
  with a bar that they may contain (`RebindUndetectedIff`).
- Ledger ingestion posts a ref as often as it stands before the break of each broken-off run and in the first
  completed ledger that lists it (`PostsExactly`), so at most once exactly when those listings are at most one
  (`AtMostOnceIff`); a plain rerun repeats what went through before the break (`RerunAfterFailure`).
- A tied W7 verdict can depend on the order of the replays (`ReplayOrderDecides`), and does so exactly when two
  replays disagree on the first maximal class they answer (`ReplayOrderFreeIff`); with the order of the queries in
  each replay free as well, exactly when the lead is shared (`VerdictOrderFreeIff`).
- A generation order moves the corpus lock exactly when two jobs share a name but not their hash (`LockMovesIff`).
- A registration can rewrite the document of another tenant's row exactly when the tenant names are not separable
  (`ProvenanceCustoms.CrossTenantIff`).
- A negative leaf index -k counts from the end exactly when k is at most the largest power of two that divides the
  number of leaves (`NegativeIndexIff`, for distinct leaves; `SafeToCountBackIff`, for all corpora of one size): of
  three leaves only the last is found (`NegativeIndexMisleads`).
- A codec signature does not cover the lengths of header and payload. It vouches for a second state exactly when the
  signed bytes can be cut elsewhere (`SecondReadingIff`), as with a blob that starts with a blank (`BlankLost`).
- Both services take the signer from the stored document. With the signer kept, edits are noticed (`SignerKept`);
  with signature and signer replaced, exactly the internally consistent documents pass (`SignerReplacedIff`).
- A composition answered as pending can be approved exactly when no row had its id or the tenant's own row was
  already waiting (`PendingIsApprovableIff`).
- A continues record can fork although every ceremony was atomic, when a successor key is used again
  (`NextCanForkIff`); with checks and writes interleaved a view can fork exactly when a schedule admits a rival of a
  pending ceremony (`ScheduleForksIff`); an edge is shown exactly when neither its key nor its certificate is empty
  (`EdgeShownIff`, `EmptyCertificateNeverShows`).
- Two ledger rows with the same words split differently between company and person get one reference
  (`DerivedRefsCollideIff`).

## Model

| member | source | states |
|---|---|---|
| `MerkleTree.MerkleRootWith` | r2/provenance_customs.py:41-49 | the level-rewriting loop, for any kind of digest and any node function, computes `RootWith`: pair neighbours, an odd last node with itself, level by level |
| `MerkleTree.MerkleRoot` | r2/provenance_customs.py:41-49 | for the digests of the service it computes `Root`, which the lemmas below tie to the perfect tree over the padded list |
| `MerkleTree.LiveFlightRoot` | scripts/run_live_flight.py:228-238 | the separately written loop, which pairs an odd last node with itself instead of appending it, computes the same `RootWith` for every kind of digest, node function, value for the empty list and list of leaves |
| `MerkleTree.LiveFlightLevel` | scripts/run_live_flight.py:231-237 | one inner loop of that script is one level of the same tree |
| `MerkleTree.PairsOfPadded` | r2/provenance_customs.py:46-48 | appending the copy and hashing the pairs is that level too |
| `MerkleTree.MerkleProof` | r2/provenance_customs.py:51-61 | for every integer index: the proof for that position when it is valid, an error exactly when the index does not fit the padded leaves from either end, and otherwise what the subscripts of the loop give |
| `MerkleTree.ProofInRange` | r2/provenance_customs.py:51-61 | a valid index, or the place of the appended copy, yields the proof of that position |
| `MerkleTree.ProofRaisesIff` | r2/provenance_customs.py:53-60 | the exact range of indices that raise; every other yields a proof of full height |
| `MerkleTree.NegativeIndexIff` | r2/provenance_customs.py:51-68 | the proof for index -k verifies the k-th leaf from the end whenever k is at most the largest power of two dividing the number of leaves, and for distinct leaves exactly then |
| `MerkleTree.SafeToCountBackIff` | r2/provenance_customs.py:51-68 | so for a number of leaves and a k, index -k counts from the end in every corpus of that size exactly under that condition |
| `MerkleTree.LowestBitDivides` | r2/provenance_customs.py:60 | the bound of that condition is a power of two, and what is left of the number of leaves is odd |
| `MerkleTree.NegativeIndexMisleads` | r2/provenance_customs.py:57-60 | of three different leaves the last one alone is found from the end |
| `MerkleTree.VerifyMerkleProof` | r2/provenance_customs.py:63-68 | the verifier accepts exactly when folding the steps over the leaf gives the root |
| `MerkleTree.LeafHashesInjective` | r2/provenance_customs.py:35-36 | leaf hashes tell source lists apart |
| `MerkleTree.ProofLeadsToRoot` | r2/provenance_customs.py:51-68 | the proof built for any leaf folds from that leaf to the root in exactly `Height` steps |
| `MerkleTree.ProofPosition` | r2/provenance_customs.py:51-61 | the sides of a built proof spell, lowest bit first, the index it was built for |
| `MerkleTree.MerkleCompleteness` | r2/provenance_customs.py:51-68 | completeness: for every non-empty list and valid index the built proof is accepted |
| `MerkleTree.ProofLength` | r2/provenance_customs.py:51-61 | the proof length is the least k with n <= 2^k |
| `MerkleTree.ClimbIsPerfect` | r2/provenance_customs.py:41-49 | the bottom-up loop computes the top-down perfect binary tree over the padded list |
| `MerkleTree.PaddedExtends` | r2/provenance_customs.py:46-47 | padding has power-of-two length, starts with the list itself and repeats only its elements |
| `MerkleTree.RootDetermines` | r2/provenance_customs.py:41-49 | two non-empty lists of leaf hashes have one root exactly when their padded lists are equal; the empty list shares its root with none; for lists of one length the root determines the list |
| `MerkleTree.LengthsCanCoincide` | r2/provenance_customs.py:46-47 | [a, b, c] and [a, b, c, c] have the same root, so length is not pinned down |
| `MerkleTree.FoldIntoPerfect` | r2/provenance_customs.py:63-68 | whatever folds into a perfect tree over leaf hashes takes at most its height in steps, exactly its height when it starts at a leaf hash, and then sits where its sides say |
| `MerkleTree.LengthDecides` | r2/provenance_customs.py:63-68 | for whatever digest a proof is accepted: the proof is at most as long as the tree is high, and of that length exactly when the digest is one of the sealed leaves |
| `MerkleTree.MerkleSoundness` | r2/provenance_customs.py:35-68 | soundness against arbitrary proofs: an accepted proof for a leaf hash, of any length, sides and siblings, means the hash is one of the sealed leaves and the length is the tree height |
| `MerkleTree.ProofUnique` | r2/provenance_customs.py:63-68 | two proofs with the same sides that lead to one root are the same proof of the same leaf |
| `MerkleTree.InnerNodesAreAcceptedToo` | r2/provenance_customs.py:63-68 | the leaf-hash hypothesis of soundness is needed: an inner node is accepted with a shorter proof |
| `ProvenanceCustoms.Article10Reasons` | r2/provenance_customs.py:86-96 | the inspection loop yields the reasons in the order of the source |
| `ProvenanceCustoms.ClearedIff` | r2/provenance_customs.py:86-96 | no reasons exactly when every source has a basis and both attestations are given |
| `ProvenanceCustoms.ProvenanceCustomsService.RegisterCorpus` | r2/provenance_customs.py:148-186 | new table and answer are those of `Register`: refusals in order change nothing, a seal upserts |
| `ProvenanceCustoms.ProvenanceCustomsService.VerifyCorpus` | r2/provenance_customs.py:202-213 | passes exactly when signature, recomputed root and clearance agree for the row of that tenant |
| `ProvenanceCustoms.ProvenanceCustomsService.InclusionProof` | r2/provenance_customs.py:215-226 | answers for the first source with that id, with a proof over all stored sources |
| `ProvenanceCustoms.RunGenuine` | r2/provenance_customs.py:148-186 | after any sequence of registrations every row holds a genuine, cleared seal, and its key recomputes both from its columns and from its receipt |
| `ProvenanceCustoms.SealedCorporaVerify` | r2/provenance_customs.py:202-213 | with a signing key every sealed corpus verifies |
| `ProvenanceCustoms.InclusionIff` | r2/provenance_customs.py:215-226 | a source id is answered with a verified proof exactly when a sealed source carries it |
| `ProvenanceCustoms.NoForgedInclusion` | r2/provenance_customs.py:63-68 | no proof at all places a source under a sealed root that does not seal it |
| `ProvenanceCustoms.TamperedSources` | r2/provenance_customs.py:202-213 | which edits of stored sources pass verification, exactly: those that leave the padded leaf list as it was, so never one that empties the list; with the number of sources kept, none; the signature check alone notices none |
| `ProvenanceCustoms.TamperedReceipt` | r2/provenance_customs.py:76-80 | an edited signed field is noticed, and only that, as long as signature and signer are kept |
| `ProvenanceCustoms.SignerKept` | r2/provenance_customs.py:248-257 | whatever somebody without the service key edits, signature included: with the signer kept, a document passes exactly when receipt and signature are the stored ones and the padded leaves are unchanged |
| `ProvenanceCustoms.SignerReplacedIff` | r2/provenance_customs.py:202-213 | with the signer replaced too, a signature that makes edited receipt and sources pass exists exactly when they agree on the root and the receipt says cleared |
| `ProvenanceCustoms.ResealKeepsColumns` | r2/provenance_customs.py:177-186 | sealing under an existing id replaces the document and no other column or row; the count column then describes the document exactly when the two counts were equal |
| `ProvenanceCustoms.CountColumnCanBeStale` | r2/provenance_customs.py:182-185 | two registrations after which source_count is 3 and the document holds 4 sources |
| `ProvenanceCustoms.OwnReceipts` | r2/provenance_customs.py:164-186 | in every run by pairwise separable tenants each row serves a receipt of its own tenant and name |
| `ProvenanceCustoms.RunIsolatesTenants` | r2/provenance_customs.py:177-186 | over whole runs, a call changes no row of a tenant whose name is separable from the caller's |
| `ProvenanceCustoms.CrossTenantIff` | r2/provenance_customs.py:71-74 | a registration can rewrite the document of another tenant's row exactly when the two names are not separable |
| `ProvenanceCustoms.RegisterExact` | r2/provenance_customs.py:148-163 | registration refuses, keeping the table, exactly for no sources, sources or attestations that do not clear, or a denial by the gateway; a licence or a lawful basis alone is enough |
| `ProvenanceCustoms.ReasonsAre` | r2/provenance_customs.py:86-96 | the reasons: those of the sources, then one per missing attestation |
| `ProvenanceCustoms.MissingBasisSnoc` | r2/provenance_customs.py:88-91 | one reason per source without a basis, in order, naming it |
| `ProvenanceCustoms.SealSays` | r2/provenance_customs.py:164-177 | what a seal records, field by field, and that it passes exactly with a key |
| `ProvenanceCustoms.RowsAreSeals` | r2/provenance_customs.py:148-187 | over any run, every stored document is the seal of one of the calls, an allowed one with cleared sources, under its own id |
| `ProvenanceCustoms.LookupIff` | r2/provenance_customs.py:188-194 | a row is answered to its tenant and to nobody else |
| `UnitSeparator.JoinInjective` | r4/composition_governance.py:46-47 | joined keys of separable tenant names are equal only for equal parts |
| `UnitSeparator.CollisionIff` | r2/provenance_customs.py:71-74 | two different tenants can be given one key exactly when one name continues the other past the separator |
| `UnitSeparator.PlainNamesSeparable` | r4/composition_governance.py:46-47 | names without the separator never collide |
| `Licences.CompatibleSubset` | r4/composition_governance.py:50-60 | leaving members out, reordering or repeating them keeps a compatible composition compatible |
| `Licences.CompatiblePairwise` | r4/composition_governance.py:50-60 | compatibility is decided by pairs: a list is compatible exactly when every two of its licences are |
| `Licences.VerdictMeans` | r4/composition_governance.py:50-60 | derivatives are forbidden exactly when some licence forbids them, and those are named; a clash is reported exactly when none does and one is non-commercial and one commercial |
| `Licences.ForbidsText` | r4/composition_governance.py:53 | which texts forbid derivatives |
| `Licences.NonCommercialText` | r4/composition_governance.py:56 | which texts are non-commercial |
| `Licences.CommercialText` | r4/composition_governance.py:57 | which texts are commercial: none that holds "non" anywhere |
| `Licences.HasWordIff` | r4/composition_governance.py:53 | splitting at dashes is the one way to cut a text into dashless words that join to it |
| `CompositionGovernance.IdOrderIndependent` | r4/composition_governance.py:44-48 | two member lists get the same composition id exactly when one rearranges the other |
| `CompositionGovernance.UncertifiedIff` | r4/composition_governance.py:126-128 | the rejection list is empty exactly when every member is certified |
| `CompositionGovernance.CompositionGovernanceService.ComposeMembers` | r4/composition_governance.py:121-155 | table and answer are those of `Compose`: checks in order, then gate, then park or emit |
| `CompositionGovernance.CompositionGovernanceService.ResumeComposition` | r4/composition_governance.py:157-169 | table and answer are those of `Resume`: only a waiting row moves; approval emits, refusal denies |
| `CompositionGovernance.CompositionGovernanceService.Verify` | r4/composition_governance.py:185-198 | passes exactly when signature, members digest and recorded verdict agree |
| `CompositionGovernance.StepKeepsInvariant` | r4/composition_governance.py:121-169 | one call keeps, for every row, certified members, compatible licences and the key recomputed from tenant, kind and sorted ids, also while it is parked |
| `CompositionGovernance.RunKeepsInvariant` | r4/composition_governance.py:121-169 | hence every run of compose and resume by any tenants keeps it |
| `CompositionGovernance.GovernedRowsVerify` | r4/composition_governance.py:185-198 | over every run, a governed row passes verification under a signing key, has certified members and compatible licences, and its key recomputes |
| `CompositionGovernance.ResumedReceiptsAreCompatible` | r4/composition_governance.py:157-169 | a resumed receipt always records a compatible verdict although resume does not act on it |
| `CompositionGovernance.StatusTransitions` | r4/composition_governance.py:149-163 | no row disappears, governed rows stay governed, and a row becomes governed only through the gate or a human approval |
| `CompositionGovernance.GovernedIsFinal` | r4/composition_governance.py:157-163 | once governed, always governed, whoever calls what |
| `CompositionGovernance.TenantsIsolated` | r4/composition_governance.py:219-227 | a call by a tenant separable from those in the table changes no row of another tenant |
| `CompositionGovernance.OwnUpsertFound` | r4/composition_governance.py:227 | and it always reads its own upsert back |
| `CompositionGovernance.RowsBelongToCallers` | r4/composition_governance.py:121-169 | every row belongs to a tenant that has made a call |
| `CompositionGovernance.RunIsolatesTenants` | r4/composition_governance.py:121-169 | over whole runs by separable tenants no call changes a row of another tenant |
| `CompositionGovernance.CrossTenantIff` | r4/composition_governance.py:44-48 | an upsert can cross from one tenant to another exactly when their names are not separable |
| `CompositionGovernance.PendingIsApprovableIff` | r4/composition_governance.py:144-170 | an escalated request leaves something to approve exactly when its id was new or a row of the same tenant was already waiting under it; the approval then emits what was parked first |
| `CompositionGovernance.ApprovedMembers` | r4/composition_governance.py:157-170 | over any run the approved members have the ids asked for, and are the members asked for exactly when those are the ones parked |
| `CompositionGovernance.SignerKept` | r4/composition_governance.py:237-246 | whatever somebody without the service key edits, signature included: with the signer kept, a receipt passes exactly when nothing was edited |
| `CompositionGovernance.SignerReplacedIff` | r4/composition_governance.py:185-198 | with the signer replaced too, a signature that makes edited members and signed fields pass exists exactly when the digest fits the members and the verdict is compatible |
| `CompositionGovernance.TamperEvidence` | r4/composition_governance.py:185-198 | a stored receipt still passes after an edit that keeps signature and signer exactly when nothing was edited |
| `CompositionGovernance.RefusalsExact` | r4/composition_governance.py:121-138 | every refusal before the gateway keeps the table and has its exact condition; the tier is too low exactly when the required one is in the list basic, verified, trusted, release, root and the caller has none at its place or after it |
| `CompositionGovernance.UncertifiedAppend` | r4/composition_governance.py:126-128 | the refusal names the uncertified members, in order |
| `CompositionGovernance.GateDecides` | r4/composition_governance.py:140-155 | an acceptable request is governed exactly when the gateway allows it; escalated or denied it leaves a new row waiting or denied without a receipt, and an existing row alone |
| `CompositionGovernance.ResumeExact` | r4/composition_governance.py:157-170 | only the waiting row of the tenant is decided: refusal denies it, approval governs it with the members parked, anything else keeps the table |
| `CompositionGovernance.DeniedStays` | r4/composition_governance.py:157-163 | no decision of a person changes a denied row; only an acceptable new request that the gateway allows does |
| `CompositionGovernance.ReceiptSays` | r4/composition_governance.py:212-235 | a receipt records tenant, time, kind, target, authority, the members and their sorted ids, and passes exactly with a key and a compatible verdict |
| `Framing.UnpackPack` | src/grafomem/cso.py:94-101 | a packed length below 2^32 has its least significant byte first, and reading it gives the length back |
| `Framing.PackUnpack` | src/grafomem/cso.py:101 | packing what was read gives the four bytes back |
| `Framing.UnframeFrame` | src/grafomem/cso.py:90-109 | parsing a frame gives the same header, payload and signature |
| `Framing.FrameUnframe` | src/grafomem/cso.py:98-109 | re-framing what was parsed gives byte for byte the accepted buffer |
| `Framing.FramingExact` | src/grafomem/cso.py:98-109 | a buffer is accepted with given parts exactly when it is their frame, of 76 more bytes than header and payload |
| `Framing.FramesDoNotExtend` | src/grafomem/cso.py:108-109 | no proper extension, and so no proper prefix, of an accepted buffer is accepted |
| `Framing.FlattenAt` | src/grafomem/cso.py:92 | row-major: cell (i, j) is stored at i * cols + j |
| `Framing.ReshapeFlatten` | src/grafomem/cso.py:133 | reshaping a flattened square matrix gives the matrix back |
| `Framing.CutFrame` | src/grafomem/cso.py:98-109 | the error for a frame cut short at any place, by where it was cut |
| `GfmCodec.FromGfm` | src/grafomem/cso.py:97-140 | on every byte string the cursor parser returns the verdict of `Parse`, with every read in range |
| `GfmCodec.AuthenticatedFirst` | src/grafomem/cso.py:114-124 | a verdict about the header's meaning, or success, is only ever reached on a well-framed buffer signed by a trusted key |
| `GfmCodec.SentIsInterpreted` | src/grafomem/cso.py:90-124 | what `to_gfm` sends passes framing and authentication and is interpreted as the header and payload sent |
| `GfmCodec.InterpretSent` | src/grafomem/cso.py:124-140 | the result of interpreting a sent state, case by case |
| `GfmCodec.SameStateIff` | src/grafomem/cso.py:90-140 | an accepted buffer under the signature of a sent state yields that state exactly when it is the sent buffer |
| `GfmCodec.SecondReadingIff` | src/grafomem/cso.py:93-121 | the signature does not cover the two lengths: it authenticates another state as well exactly when the signed bytes can be cut elsewhere into a header naming the signing key and a payload that header describes |
| `GfmCodec.BlankLost` | src/grafomem/cso.py:111-121 | a blob that starts with a blank can lose it to the header and is then delivered without it; a tensor is refused |
| `GfmCodec.InterpretedPayload` | src/grafomem/cso.py:123-140 | an interpreted state holds the payload it was read from |
| `GfmCodec.RoundTrip` | src/grafomem/cso.py:90-140 | a deliverable state comes back as itself (an absent blob as empty bytes) exactly when it is a square tensor or another payload without a matrix beside it |
| `GfmCodec.HashIdentifies` | src/grafomem/cso.py:71-82 | the content hash agrees exactly when model, dimension, alpha, layout, capabilities, consent, payload type, payload and meta without provenance agree |
| `GfmCodec.HashSurvives` | src/grafomem/cso.py:80-82 | the content hash survives transport exactly for tensors and for states without a matrix dimension |
| `GfmCodec.HashIgnoresSigner` | src/grafomem/cso.py:71-78 | key id and provenance do not reach the content hash |
| `GfmCodec.PayloadSurvives` | src/grafomem/cso.py:130-135 | the payload of a delivered tensor is the payload sent |
| `GfmCodec.FlattenReshape` | src/grafomem/cso.py:133 | flattening what was reshaped gives the flat list back |
| `GfmCodec.FrameVerdict` | src/grafomem/cso.py:98-112 | a buffer is refused as a frame, or because its header does not decode, or it frames one header and payload |
| `GfmCodec.HeaderVerdict` | src/grafomem/cso.py:114-137 | every further verdict with its exact condition, in this order: signature algorithm, known key, signature over header and payload, typed header, tensor length, shape, fields |
| `GfmCodec.InvalidHeaderIff` | src/grafomem/cso.py:120-124 | an expired or ill-typed header is reported exactly for authentic buffers that fail the typed-header check, and nothing is accepted that fails it |
| `GfmCodec.AcceptedMeans` | src/grafomem/cso.py:125-140 | an accepted buffer yields the fields of its header, the documented defaults where one is missing, and its payload |
| `GfmCodec.HeaderSays` | src/grafomem/cso.py:62-69 | the wire header of a state, field by field |
| `GfmCodec.ToGfmIff` | src/grafomem/cso.py:90-94 | sending fails exactly when a length does not fit 32 bits |
| `GfmCodec.DeliverableIff` | src/grafomem/cso.py:90-124 | which states can be delivered: those within the lengths, under a valid header that names a trusted key |
| `LinearRead.ReadOfMerge` | src/grafomem/contracts.py:5-8 | under identity activation the read of a merge is the sum of the reads |
| `LinearRead.MergeOrderFree` | src/grafomem/contracts.py:14-16 | the merge does not depend on the order of the states |
| `LinearRead.MergeNormBound` | src/grafomem/contracts.py:14-16 | the squared norm of a merge of n states is at most n times the sum of their squared norms |
| `LinearRead.Triangle` | src/grafomem/contracts.py:10-16 | two states of norm at most c and d add up to norm at most c + d |
| `LinearRead.MergeWithinEach` | src/grafomem/contracts.py:10-16 | states of norm at most c_1, ..., c_n merge to norm at most c_1 + ... + c_n |
| `LinearRead.MergeWithin` | src/grafomem/contracts.py:10-16 | n states of norm at most c merge to norm at most n c |
| `LinearRead.MergeFeasible` | src/grafomem/contracts.py:10-12 | n feasible states merge to a state feasible for n times the budget plus the tolerances spent |
| `LinearRead.ClosedIff` | src/grafomem/contracts.py:10-16 | the region is closed under merge exactly when it admits at most the zero state; otherwise a doubled state leaves it |
| `LinearRead.ReadOfSum` | src/grafomem/contracts.py:5-8 | a read is linear in the query: it adds up |
| `LinearRead.ReadOfScaled` | src/grafomem/contracts.py:5-8 | and it scales |
| `LinearRead.ReadOfUnit` | src/grafomem/contracts.py:5-8 | and reads column i for the i-th unit query |
| `LinearRead.MergeCell` | src/grafomem/contracts.py:14-16 | each cell of a merge is the sum of that cell over the states |
| `LinearRead.NormCell` | src/grafomem/contracts.py:12 | the squared norm is zero for zeros, and each cell counts with its square |
| `LinearRead.FeasibleIff` | src/grafomem/contracts.py:10-12 | feasible means a norm of at most the budget and a billionth |
| `EvidenceScoring.CalibrateReviewers` | docs/cgr/cgr_substrate_reference.py:105-115 | the collecting loop gives every reviewer the weight of `Weight` |
| `EvidenceScoring.AddReviews` | docs/cgr/cgr_substrate_reference.py:126-128 | the review loop adds exactly the weighted sums for and against |
| `EvidenceScoring.AgentPosterior` | docs/cgr/cgr_substrate_reference.py:119-128 | the loops over decisions and reviews end in `Alpha`, `Beta` and the resolved count |
| `EvidenceScoring.AgentScore` | docs/cgr/cgr_substrate_reference.py:118-129 | score and data count of one agent |
| `EvidenceScoring.CgrScores` | docs/cgr/cgr_substrate_reference.py:101-130 | every agent is scored by its own posterior over the resolved fraction |
| `EvidenceScoring.ScoreMass` | docs/cgr/cgr_substrate_reference.py:119-128 | alpha + beta = 6 + resolved count + total weight of the counted reviews |
| `EvidenceScoring.ScoreStrictlyInside` | docs/cgr/cgr_substrate_reference.py:129 | the score lies strictly between 0 and 1 |
| `EvidenceScoring.ReviewOrderIrrelevant` | docs/cgr/cgr_substrate_reference.py:111-128 | permuting the reviews changes neither posterior nor score |
| `EvidenceScoring.WeightKept` | docs/cgr/cgr_substrate_reference.py:111-115 | reviews of unresolved invoices change no reviewer's weight |
| `EvidenceScoring.FreshEvidence` | docs/cgr/cgr_substrate_reference.py:115-128 | k fresh reviews add at most 0.05 k, split between the two sides |
| `EvidenceScoring.FreshInfluenceBounded` | docs/cgr/cgr_substrate_reference.py:101-130 | and so move the score by at most 0.05 k / (alpha + beta + 0.05 k), in either direction |
| `EvidenceScoring.PosteriorCounts` | docs/cgr/cgr_substrate_reference.py:119-124 | prior and outcomes of the posterior: one plus four times the tier plus the number of paid invoices, and one plus four times the rest plus the number of defaults |
| `EvidenceScoring.OneMoreReview` | docs/cgr/cgr_substrate_reference.py:126-128 | a further review of an unresolved certification of the agent adds its rating to one side and the rest to the other, weighted; any other review adds nothing directly |
| `EvidenceScoring.WeightExact` | docs/cgr/cgr_substrate_reference.py:111-115 | below five resolved ratings a reviewer weighs 0.05, else one less four times the mean squared error, down to nothing |
| `EvidenceScoring.BetterCalibrated` | docs/cgr/cgr_substrate_reference.py:115 | of two calibrated reviewers the one with the smaller mean squared error weighs at least as much, and more unless that error is a quarter or more |
| `EvidenceScoring.PaidRaisesScore` | docs/cgr/cgr_substrate_reference.py:121-129 | a resolved invoice paid instead of defaulted raises the score of its agent strictly |
| `EvidenceScoring.RatingRaisesScore` | docs/cgr/cgr_substrate_reference.py:126-129 | a better rating never lowers the score, and raises it if the reviewer weighs anything |
| `EvidenceScoring.CertifiedAppend` | docs/cgr/cgr_substrate_reference.py:107 | the certifications are kept in order, each as often as decided |
| `EvidenceScoring.CertifiedOne` | docs/cgr/cgr_substrate_reference.py:107 | and a decision is one exactly when it certifies |
| `EvidenceScoring.ResolvedShare` | docs/cgr/cgr_substrate_reference.py:108 | the resolved share is a prefix, rounded down, and everything from one on |
| `CrossSessionReplay.OrderedRows` | scripts/run_w9.py:55-63 | the double loop and the sort produce the canonical order |
| `CrossSessionReplay.CanonicalRows` | scripts/run_w9.py:55-63 | canonical order is ascending and lists every turn of every session exactly once |
| `CrossSessionReplay.CanonicalTimes` | scripts/run_w9.py:62 | with distinct timestamps time strictly increases along it |
| `CrossSessionReplay.Cluster.Retrieve` | src/aml/backends/cross_session_backends.py:91-109 | a prefix of the ranking within the budget, and all of it once the budget covers the store |
| `CrossSessionReplay.TakeWithin` | src/aml/backends/cross_session_backends.py:101-109 | the filling loop stops at the first memory that does not fit |
| `CrossSessionReplay.RankedOnce` | src/aml/backends/cross_session_backends.py:93-99 | the ranking lists each visible memory once and no other |
| `CrossSessionReplay.WriteFact` | scripts/run_w9.py:82-90 | writing a new fact keeps store, tombstones and both maps in step with the history |
| `CrossSessionReplay.WriteFacts` | scripts/run_w9.py:82-90 | so does writing all facts of a turn; the store grows by the content once per fact |
| `CrossSessionReplay.DeleteFact` | scripts/run_w9.py:91-94 | deleting a known fact keeps them in step, for either kind of cluster |
| `CrossSessionReplay.DeleteFacts` | scripts/run_w9.py:91-94 | so does deleting all facts of a turn |
| `CrossSessionReplay.FactsOf` | scripts/run_w9.py:98-100 | the map back finds exactly the facts whose ref was retrieved |
| `CrossSessionReplay.RetrieveFacts` | scripts/run_w9.py:95-101 | a query retrieves exactly what was introduced minus what is gone for its session |
| `CrossSessionReplay.ReplayTurn` | scripts/run_w9.py:80-101 | one turn advances the tracked history by one event and answers its query exactly |
| `CrossSessionReplay.RunCluster` | scripts/run_w9.py:66-102 | on every well-formed trace within budget, each query in canonical order gets exactly facts introduced so far minus facts deleted so far (by anyone if deletes propagate, by its own session otherwise) |
| `CrossSessionReplay.DeletedWereIntroduced` | scripts/run_w9.py:91-94 | on a well-formed trace only introduced facts are ever deleted |
| `CrossSessionReplay.TimelineIncreases` | scripts/run_w9.py:55-63 | distinct timestamps make the replayed trace strictly increasing in time |
| `CrossSessionReplay.DeletedSoFar` | scripts/run_w9.py:126-128 | the ground truth by timestamp is then the set of facts deleted so far in the replay |
| `CrossSessionReplay.LeakIff` | scripts/run_w9.py:126-129 | a propagating cluster never leaks; a session-local one leaks at a query exactly when some fact was deleted by then, but never from the asking session |
| `CrossSessionReplay.PropagatingIsClean` | scripts/run_w9.py:105-135 | every entry of the propagating replay of a well-formed trace with distinct timestamps is the answer to a query of it, with leak flag 0 and survivor recall 1 |
| `CrossSessionReplay.SurvivorRecall` | scripts/run_w9.py:130-132 | survivor recall is 1 for either kind of cluster |
| `CrossSessionReplay.TimelineExact` | scripts/run_w9.py:55-63 | the replay takes every turn of every session once, as an event of its own session, strictly ordered by timestamp, session and place in the session |
| `CrossSessionReplay.EveryQueryIsAnswered` | scripts/run_w9.py:66-102 | one entry per query, at its place among the queries, with its id and exactly the facts introduced up to then and not deleted for its session; `RunCluster` ensures it of its result |
| `CrossSessionReplay.WellFormedIff` | scripts/run_w9.py:77-97 | the hypothesis on traces, turn by turn: no fact is introduced twice, and a deletion follows or shares the turn of an introduction |
| `CrossSessionReplay.VolumeStep` | src/aml/backends/cross_session_backends.py:101-108 | the budget hypothesis, turn by turn: content length times the number of facts written |
| `CrossSessionReplay.NearestFirst` | src/aml/backends/cross_session_backends.py:91-109 | what is retrieved is nearest first, older first among equals, and nothing visible that is left out is nearer |
| `CrossSessionReplay.RecallMeans` | scripts/run_w9.py:128-132 | recall is the share of targets retrieved: one exactly for all of them and nothing exactly for none |
| `CrossSessionReplay.DistinctTimesIff` | scripts/run_w9.py:55-63 | the hypothesis of distinct timestamps, turn by turn |
| `FindingRegistry.ParseToString` | results/findings.py:29-31 | parsing a printed number gives the number back |
| `FindingRegistry.CheckDuplicates` | results/findings.py:51-56 | the first loop reports exactly the duplicates in order, and fails exactly when an id has no number |
| `FindingRegistry.CheckGaps` | results/findings.py:57-61 | the second loop reports exactly the gaps in order |
| `FindingRegistry.CheckLock` | results/findings.py:62-69 | the third loop reports exactly the removed and the rebound ids |
| `FindingRegistry.Validate` | results/findings.py:48-70 | fails exactly on an id without a number; reports nothing exactly when the registry is clean and keeps the lock |
| `FindingRegistry.DuplicatesIff` | results/findings.py:51-56 | no duplicate is reported exactly when the numbers are distinct |
| `FindingRegistry.GapsIff` | results/findings.py:57-61 | no gap is reported exactly when 1 up to the maximum are all present |
| `FindingRegistry.CleanNumbering` | results/findings.py:48-61 | clean exactly when the numbers are distinct and the positive ones are 1, 2, ... without a gap |
| `FindingRegistry.CleanPermutation` | results/findings.py:48-61 | for positive numbers, clean exactly when the numbers are a permutation of 1 to the length |
| `FindingRegistry.ZeroIsAccepted` | results/findings.py:58-61 | a number that is not positive passes: F0 alone is clean |
| `FindingRegistry.NextIdNumber` | results/findings.py:73-74 | the next id parses to one more than the maximum |
| `FindingRegistry.AppendClean` | results/findings.py:73-74 | the next id is unused, and a finding under it keeps the registry clean |
| `FindingRegistry.ApplyKeeps` | results/findings.py:48-78 | appending, re-measuring or retiring keeps a clean registry clean and keeps every lock it kept |
| `FindingRegistry.HistoryKeeps` | results/findings.py:48-78 | so does every history of such edits |
| `FindingRegistry.ReleasesCompose` | results/findings.py:62-69 | checking each release against the lock of its predecessor is enough for the locks of all earlier ones |
| `FindingRegistry.RebindUndetectedIff` | results/findings.py:33-38 | a number can move between two workloads unnoticed exactly when one name continues the other past a bar |
| `FindingRegistry.UnsignedExact` | results/findings.py:30-31 | which texts are numbers |
| `FindingRegistry.ParseExact` | results/findings.py:30-31 | how a sign is read |
| `FindingRegistry.FirstNumber` | results/findings.py:73-74 | the first id of an empty registry |
| `FindingRegistry.DuplicatesExact` | results/findings.py:50-56 | each later finding with a number taken is reported once, in order, with the workload that had the number last |
| `FindingRegistry.GapsExact` | results/findings.py:58-61 | the gaps reported are the missing numbers from one to the greatest, ascending |
| `FindingRegistry.LockExact` | results/findings.py:77-78 | a lock holds under each id what its last finding is about |
| `FindingRegistry.LockReportExact` | results/findings.py:63-69 | removed are the locked ids that are gone, rebound those that read differently |
| `FindingRegistry.ApplyExact` | results/findings.py:73-78 | what publishing and re-measuring change, and that they change nothing else |
| `FindingRegistry.RunExact` | results/findings.py:43-70 | a history is applied edit by edit, and from a clean registry none is passed over |
| `FindingRegistry.NextFigure` | results/findings.py:30-31 | each figure counts ten times less than the one before it |
| `FindingRegistry.PrintedExact` | results/findings.py:73-74 | what a number is printed as |
| `TenantTeardown.OrphanTables` | scripts/delete_tenant.py:118-124 | exactly the tables with tenant_id the walk does not know, each once, in order |
| `TenantTeardown.BuildPlan` | scripts/delete_tenant.py:133-159 | one scanned entry per walk entry in order, then exactly one counted entry per orphan table |
| `TenantTeardown.LedgerGate` | scripts/delete_tenant.py:211-217 | the ledger gate closes exactly when a ledger table holds rows of the tenant |
| `TenantTeardown.OrphanGate` | scripts/delete_tenant.py:219-244 | the orphan gate closes exactly when an orphan table does |
| `TenantTeardown.DeleteAll` | scripts/delete_tenant.py:249-256 | the delete loop applies the whole walk, table by table |
| `TenantTeardown.TearDown` | scripts/delete_tenant.py:184-264 | all or nothing: only a live run that exits 0 changes the database, by the whole teardown; every refusal, fault and dry run leaves it as it was, and without faults the exit code is that of the gates in order |
| `TenantTeardown.OthersUntouched` | scripts/delete_tenant.py:250-255 | rows of other tenants keep their number in every table |
| `TenantTeardown.NothingLeft` | scripts/delete_tenant.py:118-159 | after a live exit 0 no row of the tenant is left in a table scoped by tenant_id or unknown to the walk |
| `TenantTeardown.LeftoverIff` | scripts/delete_tenant.py:56-74 | what a live run of the real walk that passes the gates leaves behind, exactly: rows naming the tenant in the global export cursors, and rows of the tenants table naming it other than by id |
| `TenantTeardown.TenantRowGone` | scripts/delete_tenant.py:72-73 | the row of the tenant itself is gone |
| `TenantTeardown.WalkEntries` | scripts/delete_tenant.py:56-74 | every other walked table is scoped by tenant_id |
| `TenantTeardown.GateExact` | scripts/delete_tenant.py:184-246 | every exit code, when no statement fails, in terms of tables and rows; a missing platform list and a platform tenant come first |
| `TenantTeardown.TeardownExact` | scripts/delete_tenant.py:248-256 | exactly the rows of the tenant in the eight deletable tables and its own row are gone, in every table, and all other rows are there as often as before |
| `TenantTeardown.WalkIs` | scripts/delete_tenant.py:56-70 | the walk, entry by entry |
| `TenantTeardown.ScanSays` | scripts/delete_tenant.py:133-152 | what the plan says of a walked table, and that count and rows kept make up all rows |
| `TenantTeardown.ProbeSays` | scripts/delete_tenant.py:118-124 | what the plan says of a table the walk does not know |
| `CorpusHash.ContentHashIff` | scripts/generate_corpus.py:75-82 | the trace hash ignores exactly trace_id and generated_at, barring a collision on the two contents |
| `CorpusHash.BuildTable` | scripts/generate_corpus.py:107-125 | the build loop fills the table in order and aborts exactly when a trace is invalid |
| `CorpusHash.TableOrderFree` | scripts/generate_corpus.py:102-125 | if jobs that share a name share their hash, the table does not depend on the order or the repetition of the jobs |
| `CorpusHash.CorpusHashIff` | scripts/generate_corpus.py:136-140 | two corpora have one corpus hash exactly when their multisets of trace hashes are equal |
| `CorpusHash.RollupIff` | scripts/generate_corpus.py:155-162 | a rollup stands for exactly the multiset of the trace hashes of its own workload |
| `CorpusHash.AddedWorkloadKeepsRollup` | scripts/generate_corpus.py:151-154 | traces of other workloads, wherever they are added, never move a rollup |
| `CorpusHash.SingleWorkload` | scripts/generate_corpus.py:151-154 | with one workload its rollup is the corpus hash |
| `CorpusHash.WorkloadHashes` | scripts/generate_corpus.py:155-162 | the grouping loop yields one rollup per workload present and no other |
| `CorpusHash.RolledUpUnderOwnWorkloadIff` | scripts/generate_corpus.py:108-157 | a trace is rolled up under its own workload exactly when the name of that workload has no underscore |
| `CorpusHash.PlainNamesDistinguish` | scripts/generate_corpus.py:108 | without underscores in workload and seed, different jobs have different names |
| `CorpusHash.LockOrderFree` | scripts/generate_corpus.py:106-162 | and then corpus hash and all rollups come out the same in any generation order |
| `CorpusHash.LockMovesIff` | scripts/generate_corpus.py:106-162 | some generation order moves the lock exactly when two jobs share a name but not their hash |
| `ContextReencryption.SelectedIff` | ops/encrypt_decision_context.py:76-78 | under three-valued logic a row is selected exactly when it is the tenant's and one of its columns is non-null plaintext |
| `ContextReencryption.Database.EncryptColumn` | ops/encrypt_decision_context.py:131-139 | a plaintext column becomes the sentinel with a ciphertext that decrypts to it, any other stays |
| `ContextReencryption.Database.Scan` | ops/encrypt_decision_context.py:72-78 | lists each selected row once |
| `ContextReencryption.Database.WriteBackup` | ops/encrypt_decision_context.py:120-127 | appends the pre-image of each scanned row |
| `ContextReencryption.Database.UpdateRows` | ops/encrypt_decision_context.py:129-147 | migrates exactly the scanned rows and counts rows and columns |
| `ContextReencryption.Database.Commit` | ops/encrypt_decision_context.py:129-150 | all updates are committed together, or none |
| `ContextReencryption.Database.Apply` | ops/encrypt_decision_context.py:116-150 | commits everything with the backup written first, or commits nothing |
| `ContextReencryption.Database.Reencrypt` | ops/encrypt_decision_context.py:63-150 | a completed apply leaves no plaintext by the script's own count; guard abort, dry run, missing backup path and faults commit nothing; each outcome occurs exactly under its condition, and the counts returned are those of the backup lines |
| `ContextReencryption.AppliedIsClean` | ops/encrypt_decision_context.py:153-160 | after an apply no row of the tenant is selected, so the count is zero |
| `ContextReencryption.ReadsTheSame` | ops/encrypt_decision_context.py:129-147 | for every row of the table, a reader with the encryptor sees the same context before and after |
| `ContextReencryption.SecondApplyIsNoop` | ops/encrypt_decision_context.py:76-150 | a second apply, with any encryptor, changes and backs up nothing |
| `ContextReencryption.ReplayAt` | ops/encrypt_decision_context.py:120-125 | replaying the backup sets each listed row to its original context and no other row |
| `ContextReencryption.StepRecoverable` | ops/encrypt_decision_context.py:116-150 | one run, however it ends, keeps every original context recoverable |
| `ContextReencryption.BackupRestores` | ops/encrypt_decision_context.py:116-150 | through any history of runs (committed, refused, dry or failed) replaying the backup restores query and raw_output of every row |
| `ContextReencryption.GuardedIff` | ops/encrypt_decision_context.py:96-104 | the guard closes exactly when a row of the tenant with plaintext to migrate holds retrieved contents or parsed output as well |
| `ContextReencryption.TouchedRows` | ops/encrypt_decision_context.py:128-145 | an apply changes only rows of the tenant without such contents, in them only the columns that were in the clear, and leaves their ciphertext |
| `ContextReencryption.KleeneOr` | ops/encrypt_decision_context.py:74-77 | the three-valued connectives |
| `ContextReencryption.ColumnsCounted` | ops/encrypt_decision_context.py:131-138 | the number of columns reported, row by row |
| `ContextReencryption.ReadColumnIs` | ops/encrypt_decision_context.py:131-137 | how a migrated column reads back |
| `ContextReencryption.HistoryExtends` | ops/encrypt_decision_context.py:62-147 | every run extends the history, so the histories are all sequences of runs |
| `Slugs.Slugify` | ops/ingest_front.py:81-92 | the loop computes `Slug`, characterised below |
| `Slugs.SlugIsJoinedWords` | ops/ingest_front.py:81-92 | a slug is the alphanumeric words of the lower-cased text joined by single dashes |
| `Slugs.SlugEqualIff` | ops/ingest_front.py:81-92 | two texts have one slug exactly when they have the same words |
| `Slugs.SlugIdempotent` | ops/ingest_front.py:81-92 | slugify is idempotent |
| `Slugs.SlugWellShaped` | ops/ingest_front.py:81-92 | no leading, trailing or doubled dash, and nothing but alphanumerics and dashes |
| `Slugs.SlugKeepsAlnums` | ops/ingest_front.py:85-88 | exactly the lower-cased alphanumerics are kept, in order |
| `Slugs.DerivedRef` | ops/ingest_front.py:99-111 | a derived reference is OUT- and all words of company then person; without words it is an error |
| `Slugs.DerivedRefsCollideIff` | ops/ingest_front.py:106-111 | two derived references are equal exactly when the rows have the same words in the same order |
| `Slugs.SpaceIff` | ops/ingest_front.py:85 | which characters are stripped |
| `Slugs.SlugText` | ops/ingest_front.py:81-92 | the text of a slug, character by character |
| `Slugs.StripParts` | ops/ingest_front.py:85 | stripping takes such characters off both ends, all of them and no others |
| `Slugs.ExplicitRef` | ops/ingest_front.py:103-105 | a reference of its own wins, stripped; only a row without one gets a derived reference |
| `Slugs.AlnumsOf` | ops/ingest_front.py:85-87 | what the letters and figures of a text are |
| `LedgerIngestion.Chunks` | ops/ingest_front.py:228-230 | chunking loses, repeats and reorders nothing; all chunks but the last are full |
| `LedgerIngestion.Ingestion.PostDecisions` | ops/ingest_front.py:317-322 | posts all refs in order, or a proper prefix of them when a post fails |
| `LedgerIngestion.Ingestion.PostOutcomes` | ops/ingest_front.py:325-330 | posts all outcomes in order, or only whole leading chunks of 8 when a post fails |
| `LedgerIngestion.Ingestion.PostReviews` | ops/ingest_front.py:332-335 | posts all reviews in order, or only whole leading chunks of 20 when a post fails |
| `LedgerIngestion.Ingestion.MapRows` | ops/ingest_front.py:289-298 | maps all rows before any post, and lists those whose ref the manifest does not know |
| `LedgerIngestion.Ingestion.Run` | ops/ingest_front.py:263-335 | a bad row or a dry run changes nothing; a completed run posts the unknown refs, all outcomes and all reviews and records the refs; a failed one either breaks off at a row, records nothing and posts nothing further, or records all and stops after whole chunks of outcomes or of reviews |
| `LedgerIngestion.PostsExactly` | ops/ingest_front.py:289-323 | over any history of completed and broken-off runs a decision is posted exactly as often as it stands before the breaks and in the first completed ledger that lists it |
| `LedgerIngestion.AtMostOnceIff` | ops/ingest_front.py:289-323 | from an empty start nothing is ever posted twice exactly when no ref has two such listings |
| `LedgerIngestion.DistinctLedgers` | ops/ingest_front.py:289-323 | completed runs on ledgers with distinct refs meet that condition |
| `LedgerIngestion.RerunAfterFailure` | ops/ingest_front.py:317-323 | running a broken-off ledger again lists everything before the break a second time, whatever follows |
| `LedgerIngestion.ResumeAtBreak` | ops/ingest_front.py:317-323 | running only its rows from the break on lists every ref as if nothing had happened |
| `LedgerIngestion.DecisionsOf` | ops/ingest_front.py:290-298 | each row contributes its ref, unless the manifest holds it |
| `LedgerIngestion.OutcomesOf` | ops/ingest_front.py:300 | each resolved row contributes one outcome under its ref, in ledger order, and no other row does |
| `LedgerIngestion.ReviewsOf` | ops/ingest_front.py:301 | each reviewed row contributes one review under its ref |
| `LedgerIngestion.BrokeOffIff` | ops/ingest_front.py:320-326 | a run has broken off exactly when the manifest is as it was and some of the new refs, not all, were posted |
| `LedgerIngestion.OutcomesStopped` | ops/ingest_front.py:328-333 | the outcomes stage has stopped exactly after a proper prefix of whole chunks of 8 |
| `LedgerIngestion.ReviewsStopped` | ops/ingest_front.py:335-340 | the reviews stage has stopped exactly after a proper prefix of whole chunks of 20 |
| `ConflictClassifier.QueryClass` | scripts/w7_classify.py:49-79 | the class in terms of the signal and of which of the pair was returned; an error exactly for an identical pair |
| `ConflictClassifier.QueryMirrors` | scripts/w7_classify.py:72-79 | naming the pair the other way round mirrors the class |
| `ConflictClassifier.CollectReplays` | scripts/w7_classify.py:105-108 | the nested loops build the outcome sets per key in first-seen order |
| `ConflictClassifier.CollectExact` | scripts/w7_classify.py:105-108 | a key holds exactly the outcomes it was ever answered with |
| `ConflictClassifier.CountClasses` | scripts/w7_classify.py:112-115 | the counter holds, per class, the number of keys answered with it alone |
| `ConflictClassifier.MostCommon` | scripts/w7_classify.py:125 | the first of the classes with the highest count |
| `ConflictClassifier.ClassifyBackend` | scripts/w7_classify.py:82-126 | an error exactly without replays; summary counts per definition; verdict non-deterministic when a key is unstable or none is stable, else the leading class |
| `ConflictClassifier.CountsAddUp` | scripts/w7_classify.py:110-121 | stable counts plus unstable keys add up to the number of queries |
| `ConflictClassifier.OutcomesOrderFree` | scripts/w7_classify.py:105-121 | permuting or repeating replays changes no outcome set and so no count |
| `ConflictClassifier.NonDeterministicIff` | scripts/w7_classify.py:123-126 | from single-query classes the verdict is non-deterministic exactly when a key is unstable or there are no keys |
| `ConflictClassifier.ReplayOrderFreeIff` | scripts/w7_classify.py:105-125 | on decided outcomes the verdict is the same for every order of the replays exactly when all replays with an answer of a maximal class have the same class first among those |
| `ConflictClassifier.AlignedReplaysAgree` | scripts/w7_classify.py:105-125 | replays that list the same keys in the same order meet that condition, tie or no tie |
| `ConflictClassifier.ReplayOrderDecides` | scripts/w7_classify.py:105-125 | two one-query replays and their reverse have different verdicts |
| `ConflictClassifier.VerdictUnique` | scripts/w7_classify.py:112-125 | any collected outcomes have at most one verdict, decided or not |
| `ConflictClassifier.VerdictIsFirstLead` | scripts/w7_classify.py:112-125 | on decided outcomes the verdict is the class of the first answer of a maximal class |
| `ConflictClassifier.TieGoesToFirst` | scripts/w7_classify.py:125 | any class of maximal count becomes the verdict of the same replays when one of its queries is moved to the front of its replay, and that replay to the front |
| `ConflictClassifier.VerdictOrderFreeIff` | scripts/w7_classify.py:105-125 | the verdict is the same for every order of the replays and of the queries in each exactly when one class leads alone |
| `ConflictClassifier.SummaryExact` | scripts/w7_classify.py:104-121 | the summary counts keys, keys with two different answers, and per class the keys that always got it; `ClassifyBackend` ensures it |
| `ConflictClassifier.DecidedMeans` | scripts/w7_classify.py:110-123 | the counts decide exactly when no key is contested and something was answered |
| `ContinuesCeremony.IdentityStore.LoadContinuesEdges` | src/aml/cgr/substrate.py:275-299 | the loader keeps, per subject, its last well-formed record of the tenant |
| `ContinuesCeremony.IdentityStore.CheckAntiFork` | scripts/cgr_continues_ceremony.py:114-124 | passes exactly when no visible edge targets the certificate |
| `ContinuesCeremony.IdentityStore.RunCeremony` | scripts/cgr_continues_ceremony.py:136-173 | 0 exactly when all four preconditions hold, else 2; exactly one record is written, and only on a live 0 |
| `ContinuesCeremony.SignatureServesTwoIff` | scripts/cgr_continues_ceremony.py:68-71 | one signature can serve two certificates exactly when one text continues the other past a nonce mark |
| `ContinuesCeremony.AtomicRunsNeverFork` | scripts/cgr_continues_ceremony.py:136-173 | in every run of atomic ceremonies no two visible successors share a predecessor, even when successor keys are reused |
| `ContinuesCeremony.FreshKeysNeverFork` | scripts/cgr_continues_ceremony.py:136-173 | with every successor key used once the whole record has at most one successor per predecessor |
| `ContinuesCeremony.NextCanForkIff` | scripts/cgr_continues_ceremony.py:114-124 | the next admissible ceremony can fork the record exactly when some continued certificate is hidden from the view |
| `ContinuesCeremony.ReuseForks` | src/aml/cgr/substrate.py:278-290 | a run that reuses a successor key and then forks its first predecessor |
| `ContinuesCeremony.TenantsUnseen` | src/aml/cgr/substrate.py:265-272 | records of other tenants neither show nor stop anything |
| `ContinuesCeremony.WritesForkIff` | scripts/cgr_continues_ceremony.py:36-42 | from an unforked state the pending ceremonies can write a fork exactly when two of them would show different successors of one certificate |
| `ContinuesCeremony.SerialisedNeverForks` | scripts/cgr_continues_ceremony.py:36-42 | a schedule that admits no such rival of a pending ceremony keeps every view free of forks, whatever else interleaves |
| `ContinuesCeremony.ScheduleForksIff` | scripts/cgr_continues_ceremony.py:36-42 | a schedule of checks and writes can go on to a fork exactly when some step of it admits a rival of a pending ceremony |
| `ContinuesCeremony.ConcurrentCeremoniesFork` | scripts/cgr_continues_ceremony.py:36-42 | the run the module warns of: both checks pass before either writes, and the writes fork the view |
| `ContinuesCeremony.EdgeShownIff` | src/aml/cgr/substrate.py:283-298 | the record of an admitted ceremony is shown exactly when neither its key nor its certificate is empty |
| `ContinuesCeremony.EmptyCertificateNeverShows` | src/aml/cgr/substrate.py:288-289 | two ceremonies for an empty certificate are both admitted and written, and nothing shows |
| `ContinuesCeremony.AdmissibleExact` | scripts/cgr_continues_ceremony.py:136-160 | a request is admitted exactly when B signed the message bound to this key, certificate and nonce, the registry has A with a revocation time, the tier is one of the three, and no latest record of a subject has the certificate |
| `ContinuesCeremony.ViewShowsLatest` | src/aml/cgr/substrate.py:275-298 | the view shows exactly the latest complete record of each subject |
| `ContinuesCeremony.RecordsWereAskedFor` | scripts/cgr_continues_ceremony.py:142-173 | a run only appends, and every record it appends was asked for in that way |
| `ContinuesCeremony.AcceptedTwiceIff` | scripts/cgr_continues_ceremony.py:68-88 | one signature of B is accepted for two certificates exactly when one continues the other past a nonce mark |
| `ContinuesCeremony.DistinctKeysNeverFork` | scripts/cgr_continues_ceremony.py:114-124 | ceremonies with different successor keys never fork the record of a tenant |
| `Sorting.SortSorted` | r4/composition_governance.py:47 | sorting gives an ascending rearrangement |
| `Sorting.SortCanonical` | r4/composition_governance.py:44-48 | two lists sort to one list exactly when one rearranges the other |
| `Sorting.StringLeqIff` | r4/composition_governance.py:47 | strings are ordered by their first difference, a prefix first |
| `Ascii.LowerMaps` | ops/ingest_front.py:85 | the i-th capital becomes the i-th small letter |
| `Ascii.LowerKeeps` | ops/ingest_front.py:85 | and no other character changes |

## Left out

- Real cryptography and encodings: BLAKE2b, SHA-256, Ed25519, Fernet, hexadecimal, JSON text, UTF-8.
- PostgreSQL, HTTP, FastAPI routers, SDK wrappers, printing and exit of the process; concurrent writers, except
  in the continues ceremony; foreign keys, triggers and cascades.
- GfmCodec.RoundTrip: the typed-header check is a predicate on the header, so the regular expressions and the
  reading of the clock inside it are not modelled.
- GfmCodec.FromGfm: a JSON header that is not an object, or fields of another JSON type than the encoder writes,
  are not modelled.
- MerkleTree.NegativeIndexIff: when leaves repeat, only the sufficient half, since equal leaves can let a proof for
  the wrong place verify; `SafeToCountBackIff` is exact over all corpora. Index -(n + 1) of an odd number n of
  leaves does not raise either, but no leaf is that far from the end.
- MerkleTree.VerifyMerkleProof: siblings are digests, so a proof step that is not valid hexadecimal is not modelled.
- MerkleTree.LiveFlightRoot: the hash of that script, over concatenated hexadecimal strings, is a parameter, and so
  is the string of zeros it returns for the empty list.
- LinearRead.ReadOfMerge: only identity activation; under `tanh` a read is not additive. `np.sum` of no states is
  the scalar 0 and not a matrix, so a merge takes at least one state.
- LinearRead.MergeFeasible: rounding of the norm and of the sums.
- EvidenceScoring.CgrScores: the generation of the example data, numpy arrays as such, rounding.
- CompositionGovernance.CompositionGovernanceService.Verify: the attestation record returned beside the verdict.
- CrossSessionReplay.RunCluster: the handles of a cluster differ only in their tombstones and are one object;
  the embedder is a similarity function; "generous budget" is the condition that everything the trace writes
  fits; the averaging over seeds and the capability claims are not modelled.
- FindingRegistry.ParseToString: `int()` also accepts blanks, underscores and other digits; loading the file,
  staleness and the emitted projections are not modelled.
- TenantTeardown.TearDown: the sample of display columns, printing, and the failure of a display column that a
  table lacks (a fault before any write) are not modelled beyond "a statement may fail".
- ContextReencryption.Database.Scan: the order by creation time; any order is allowed.
- ContextReencryption.BackupRestores: the ciphertext columns are not in the backup, so a replay brings back the
  two plaintext columns and leaves those as they are; the count over LLM providers is a heuristic of its own.
- CorpusHash.BuildTable: the generators and validators are one parameter; the stability check at
  `scripts/generate_corpus.py:183-193` reads the lock after line 174 has rewritten it, so it compares a lock with
  itself; stability is stated as `AddedWorkloadKeepsRollup` instead.
- Slugs.Slugify: case, whitespace and alphanumerics beyond ASCII.
- LedgerIngestion.Ingestion.Run: the payload beside the reference, the table from status texts to outcomes, number
  parsing of cells, and the server's own deduplication of outcomes and reviews.
- LedgerIngestion.Chunks: the source yields chunks lazily. A post that fails is taken not to have been accepted.
- ConflictClassifier.ClassifyBackend: the class values as strings.
- ContinuesCeremony.IdentityStore.RunCeremony: timestamps, the ceremony reference and the store's own write path;
  precondition 2 looks up the agent the operator names, and nothing in the source ties it to the certificate.
- The landing services and `r5/world_model.py`: an approval there writes a new row and leaves the parked one,
  so they have no lifecycle of their own beyond the one proved for `r4`.
- The attestation corpora under `conformance/`, the probes, demos and patch scripts.
