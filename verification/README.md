# AgentAudit: a verified model

AgentAudit takes the decision of an AI agent, has a smart contract check it against the policies its
organisation registered, mints a receipt when all of them hold, collects the records into Merkle
batches, and anchors each batch root on Algorand so that any single record can be verified later.
This project models those parts and proves what they guarantee, from one hash of two siblings up to
statements about every interleaving of onboarding runs, audits, flushes, lost confirmations and
crashes.

`dafny verify dfyconfig.toml` checks everything.

## How the files follow the system

| file | what it models |
|---|---|
| `Basics.dfy` | bytes, digests, the abstract hash, results, big-endian words |
| `Merkle.dfy`, `MerkleTheorems.dfy` | `batcher/merkle.py`: the loops and the top-down tree; soundness, binding, when two lists share a root |
| `Arc4.dfy` | the hand-written ARC-4 encoders of the contract client, against the decoders of ARC-4, section "Encoding" |
| `BoxKeys.dfy` | the names of the contract boxes and why they do not clash |
| `WireForms.dfy` | the bytes that others see, written out: numbers, names, tokens, and the readings of malformed input |
| `ResultString.dfy` | the per-rule result string, from contract to log to client to dashboard |
| `PolicyContract.dfy`, `TenantIsolation.dfy` | `contracts/policy_contract.py`; tenants do not influence each other |
| `ContractClient.dfy` | the client's policy calls: encoding, box list, decoding |
| `TenantStore.dfy`, `Provisioning.dfy` | the tenant tables; registration, argument building, the auditor's recheck |
| `Onboarding.dfy`, `OnboardingProof.dfy`, `OnboardingTheorems.dfy` | onboarding as a state machine, its invariant, and what follows in every reachable state |
| `OnboardingStability.dfy`, `OnboardingErasure.dfy`, `AuditorRecheck.dfy` | what later states keep; a failed run deleted from history; the auditor's recheck at any later time |
| `OnboardingRuns.dfy`, `OnboardingCompletes.dfy`, `Service.dfy` | the onboarding endpoint refines the machine; every onboarding can complete; the policy breakdown |
| `PolicyVerdict.dfy`, `DeclaredPolicies.dfy` | a verdict compared with the policies in force, and these with the policies as they were written |
| `Pipeline.dfy`, `Receipts.dfy`, `ApprovedRecords.dfy`, `MissingFields.dfy` | the audit pipeline, the conservation of receipts, what an approved record means, and decisions that leave out a field |
| `WorkedExample.dfy` | concrete executions: a tenant with a limit, for whom the theorems' assumptions are met; two whitelists on one field; a rule that stops the auditor |
| `BatchStore.dfy`, `AnchorContract.dfy`, `BatchAnchor.dfy` | the batch tables, the anchor contract and its client, the verify endpoint, `flush_and_anchor` |
| `Anchoring.dfy`, `AnchoringTheorems.dfy`, `AnchoringPositions.dfy` | the anchoring protocol as a state machine, what every reachable state guarantees, and the positions of leaves in their batches |

## How to read the statements

- **The hash.** SHA-256 is a parameter `sha`, so every theorem holds for every hash function. No
  function from byte strings to 32 bytes is injective, so "or there is a collision" alone would say
  nothing. Soundness and isolation therefore return the two colliding inputs, and binding assumes
  injectivity only on the finite set of inputs hashed while building two given trees.
- **The state machines.** `Onboarding` and `Anchoring` let any number of runs interleave at the
  `await`s of the code. A transaction can be delivered, dropped, or take effect while its caller sees
  a failure; the process can crash at any point. `Receipts` is a third machine, of contract calls,
  recorded verdicts and marks. The onboarding endpoint, `flush_and_anchor` and the audit pipeline are
  methods on mutable classes, and each call is proved to follow a path of its machine when that stands
  where the tables and the chain are and the id that the call issues is new.
- **The digests.** A digest is the 32 bytes that the 64 lower-case hexadecimal characters stand for.
  Sorting the texts and sorting the bytes gives the same order.

## What turned out not to hold as stated

- The docstring of `batcher/merkle.py` says that sorting siblings makes proofs deterministic
  regardless of insertion order. The root depends on the order: `PermutationChangesRoot` exchanges
  two of four leaves. Two lists of equal height share a root exactly when their trees are equal up to
  exchanging the children of nodes (`SameRootIffSameTree`).
- `verify_proof` does not fix the length of a proof, so it also accepts interior nodes with shorter
  proofs (`ShortProofAccepted`). `Examine` and `NodeHasProof` together say what is accepted at every
  length: the nodes that far below the root, and nothing else short of a collision.
- The permutation half of binding needs distinct leaves: repeating the last of an odd number of
  leaves keeps the root (`RepeatedLastLeaf`).
- Tenants are not fully independent: all of them draw on one stock of receipts, so a tenant that takes
  the last one makes another's passing check fail (`ReceiptsAreShared`). `NonInterference` says that
  this is the only way, and exactly when it happens.
- An on-chain set belongs to a field and not to a rule, so two public whitelists on one field accept
  each other's values, and a record is approved although a declared policy refuses it
  (`ApprovedAgainstAWhitelist`). `DecisionDiffers` and `ApprovedAsWritten` give the exact condition
  under which a decision differs from the policies as written, which never happens with one public
  set policy per field.
- Re-adding an action with a different record while its batch waits for the transaction leaves an
  anchored row that fails verification (`ReAddInFlightFails`). `VerifyExactly` says which rows verify
  without any assumption on additions.
- A recheck of an audited decision can stop working: a private numeric rule that is added later on one of
  its fields raises where the value is no number, and the auditor gets no report on any rule
  (`LaterRuleStopsTheAuditor`). `RecheckReturns` says exactly when.
- A crash or lost confirmation between the on-chain write of a rule and its mirror leaves the tenant
  with one on-chain rule more than the store has, and every check built from the store is refused
  (`UnstoredRuleRefuses`).

## Model

| member | source | states |
|---|---|---|
| Merkle.ComputeRoot | batcher/merkle.py:43-61 | the bottom-up loop returns the root of the top-down tree of least height (left half 2^(h-1) leaves, left subtree mirrored where no right one exists) for every non-empty list, and the error on the empty one; the roots of one, two and three leaves spelled out, the smaller digest of each pair first |
| Merkle.SmallerIsHashedFirst | batcher/merkle.py:30-33 | of two siblings the one with the smaller byte at the first difference is hashed first, on whichever side it stands |
| Merkle.ComputeProof | batcher/merkle.py:64-94 | the loop returns the siblings on the path from the leaf to the root; both error cases |
| Merkle.VerifyProof | batcher/merkle.py:97-112 | accepts exactly when folding the proof into the leaf gives the root |
| Merkle.HeightIsLeast | batcher/merkle.py:59-60 | the number of turns of the root loop is the least h with n <= 2^h |
| Merkle.Proof | batcher/merkle.py:87-92 | a proof has exactly as many siblings as the tree is high |
| Merkle.LevelStep | batcher/merkle.py:36-40 | the tree over the next level is the tree over the level with its lowest layer collapsed, odd levels included |
| Merkle.RootStep | batcher/merkle.py:59-60 | one turn of the root loop keeps the root |
| Merkle.Completeness | batcher/merkle.py:83-112 | the proof of every leaf of every non-empty list leads to the root of that list |
| MerkleTheorems.PairInjective | batcher/merkle.py:30-33 | the hashed bytes of a pair determine the two siblings up to order, and only up to order |
| MerkleTheorems.NodesAreLevels | batcher/merkle.py:58-60 | the nodes at any depth of the top-down tree are the level that the loop reaches that far from the end |
| MerkleTheorems.Examine | batcher/merkle.py:109-112 | from an accepted proof of any length: the digest is a node that far below the root, or two colliding inputs are returned |
| MerkleTheorems.Soundness | batcher/merkle.py:97-112 | an accepted proof of full length proves that the digest is a leaf, or two colliding inputs are returned |
| MerkleTheorems.NodeHasProof | batcher/merkle.py:97-112 | every node has an accepted proof as long as its depth, so `Examine` is exact |
| MerkleTheorems.ShortProofAccepted | batcher/merkle.py:109-112 | whatever the hash, the parent of two leaves is accepted against their root with a proof that is too short |
| MerkleTheorems.SameRootIffSameTree | batcher/merkle.py:43-61 | the exact condition under which two lists of equal height have the same root |
| MerkleTheorems.Binding | batcher/merkle.py:43-61 | equal height and root mean equal leaf sets, and permutations when neither list has duplicates |
| MerkleTheorems.RepeatedLastLeaf | batcher/merkle.py:38-39 | repeating the last of an odd number of leaves never changes the root |
| MerkleTheorems.PermutationChangesRoot | batcher/merkle.py:4-5 | exchanging the middle two of four distinct leaves changes the root |
| Arc4.StringRoundTrip | algorand/contract_client_v2.py:65-104 | a length-prefixed string is recovered wherever it stands, by the ARC-4 decoder and by the client's |
| Arc4.StringPrefixFree | algorand/contract_client_v2.py:65-68 | the first string of a concatenation and the rest after it are determined by the bytes |
| Arc4.StringArrayRoundTrip | algorand/contract_client_v2.py:124-133 | decoding an encoded string array through its offset table gives the array, whenever lengths and offsets fit 16 bits |
| Arc4.EncodeArrayString | algorand/contract_client_v2.py:124-133 | the encoder fails exactly when a length or offset does not fit, and otherwise its bytes decode to the array |
| Arc4.Uint64ArrayRoundTrip | algorand/contract_client_v2.py:119-121 | decoding an encoded number array gives the array |
| Arc4.EncodeArrayUint64 | algorand/contract_client_v2.py:119-121 | the encoder fails exactly when a number or the count is out of range, and otherwise its bytes decode to the array |
| Arc4.SetBit | algorand/contract_client_v2.py:141-142 | or-ing in 1 << (7 - k) sets bit k, counted from the most significant, and no other |
| Arc4.EncodeArrayBool | algorand/contract_client_v2.py:136-143 | the in-place packing decodes, most significant bit first and with zero padding bits, to the array |
| Arc4.PolicyRuleRoundTrip | algorand/contract_client_v2.py:160-175 | the 28-byte head and two-string tail decode to the five fields of the rule |
| Arc4.BuildPolicyRule | algorand/contract_client_v2.py:160-175 | building fails exactly when a number or an offset does not fit, and otherwise the contract decodes the rule that was given |
| Arc4.AnchorRootRoundTrip | algorand/contract_client_v2.py:445-453 | the client's read of an anchor box gives the root that the contract stored |
| WireForms.BigEndian | algorand/contract_client_v2.py:71-73 | encoded numbers have their most significant byte first |
| WireForms.StringForm | algorand/contract_client_v2.py:65-68 | two bytes of length, most significant first, and the text |
| WireForms.StringArrayForm | algorand/contract_client_v2.py:124-133 | the bytes of an array of two strings, written out |
| WireForms.BoolArrayForm | algorand/contract_client_v2.py:136-143 | element i of a boolean array is bit i % 8, counted from the top, of byte i / 8 behind the count |
| WireForms.BoxNames | algorand/contract_client_v2.py:76-96 | the names of the four kinds of boxes, written out |
| WireForms.TokenForms | contracts/policy_contract.py:190-200 | the four tokens, written out |
| WireForms.BreakdownForm | api/main.py:745-747 | for every part: a pass exactly if "pass" stands before the first colon; the layer behind it, or "onchain" |
| WireForms.CutStrings | algorand/contract_client_v2.py:99-104 | the client reads what there is of a string that is cut off, and nothing of one without a length |
| WireForms.ShortLogs | algorand/contract_client_v2.py:377-382 | a log of at most six bytes reads as unknown, a longer one as the string behind its prefix |
| WireForms.MintedForm | algorand/contract_client_v2.py:384 | any result counts as minted exactly if it is not empty and every part begins with "pass" |
| WireForms.BadAnchorBoxes | algorand/contract_client_v2.py:445-453 | an anchor box without an offset, or with one that points outside, is an error |
| BoxKeys.PreimageInjective | algorand/contract_client_v2.py:76-96 | two boxes of one kind with the same hashed bytes are the same box: parts cannot be shifted between fields |
| BoxKeys.NamesDistinct | algorand/contract_client_v2.py:76-96 | different boxes, of one kind or of different kinds, have different names unless their two preimages collide |
| ResultString.TokenShape | contracts/policy_contract.py:190-200 | a token holds no separator, starts with "pass" exactly when its rule passed, and partitions into verdict and layer |
| ResultString.SplitRender | contracts/policy_contract.py:190-200 | the result string splits into exactly the tokens it was built from |
| ResultString.SplitJoins | algorand/contract_client_v2.py:384 | of any text, the parts hold no bar and joined by bars they are the text |
| ResultString.ResultRoundTrip | algorand/contract_client_v2.py:377-385 | through encoding, the log prefix and decoding, the client reads the contract's string, its minted flag is the all-pass flag, and every verdict and layer is recovered |
| ResultString.UnknownIsNotMinted | algorand/contract_client_v2.py:378-384 | without a log nothing counts as minted, for any number of rules |
| PolicyContracts.PolicyContract.RegisterRule | contracts/policy_contract.py:87-96 | exactly when it succeeds; it writes the rule at the old count and raises the count by one, and changes nothing otherwise |
| PolicyContracts.PolicyContract.AddToSet | contracts/policy_contract.py:98-105 | exactly when it succeeds; then the value is a member, every other box of the sets stays, and so do rules, counts and receipts |
| PolicyContracts.PolicyContract.RemoveFromSet | contracts/policy_contract.py:107-115 | exactly when it succeeds, the missing value included; then the value is no member, every other box of the sets stays, and so do rules, counts and receipts |
| PolicyContracts.PolicyContract.CheckRule | contracts/policy_contract.py:151-189 | the body of the loop gives the specified verdict of rule i, or fails for a missing or unreferenced box; a mode-1 verdict is `<`, `<=`, `>`, `>=`, `==`, `!=`, in the set or not in it for codes 1 to 8, and any other mode gives the attested bit |
| PolicyContracts.JudgeMeans | contracts/policy_contract.py:158-188 | the same of the specified verdict, for every rule, with every other code read as `!=` |
| PolicyContracts.PolicyContract.EvaluateRules | contracts/policy_contract.py:148-200 | the loop returns the all-pass flag and the rendering of the verdicts of all rules, or fails if one rule has none |
| PolicyContracts.PolicyContract.CheckAndMint | contracts/policy_contract.py:117-210 | exactly when the call is confirmed; its result string; and that exactly one receipt leaves when all rules pass and none otherwise |
| PolicyContracts.AcceptsMeans | contracts/policy_contract.py:135-165 | what a check needs to be evaluated, assertion by assertion: the creator, the referenced count box with a positive count, three arrays of that length, every rule box, every set box that is read; and to be confirmed, room for its result and a receipt if all rules pass |
| TenantIsolation.WritesAreLocal | contracts/policy_contract.py:91-115 | a contract call changes only boxes that bear the name of a box it writes |
| TenantIsolation.MembershipChanges | contracts/policy_contract.py:98-115 | an added value is a member, a removed one is none, and every other membership stays, or two set boxes collide |
| TenantIsolation.Isolation | contracts/policy_contract.py:91-115 | any run of other tenants' calls leaves a tenant's box as it was, or a colliding box of another tenant is returned |
| TenantIsolation.OutcomeDependsOnOwnBoxes | contracts/policy_contract.py:117-200 | the outcome of a check depends only on the boxes of its tenant |
| TenantIsolation.NonInterference | contracts/policy_contract.py:117-210 | after any run of other tenants a check has the same verdicts, and is confirmed as before exactly unless it passes and the others sent all receipts that were left; or two colliding boxes of different tenants are returned |
| TenantIsolation.ReceiptsAfter | contracts/policy_contract.py:202-208 | a run leaves the receipts less the number it sent, and none below zero |
| TenantIsolation.ReceiptsAreShared | contracts/policy_contract.py:202-208 | a tenant that takes the last receipt makes a passing check of another one fail |
| ContractClient.RegisterRule | algorand/contract_client_v2.py:197-252 | on success the contract holds the given rule behind the old ones and its index is read back from the log; a failure changes nothing or, when unconfirmed, exactly that; it succeeds whenever the call is delivered and encodable |
| ContractClient.IndexRoundTrip | algorand/contract_client_v2.py:241-248 | the eight bytes behind the log prefix give the index that the contract assigned, whatever the client guessed |
| ContractClient.AddToSet | algorand/contract_client_v2.py:255-294 | exactly when it succeeds, and what it leaves on-chain in each case |
| ContractClient.ListBoxes | algorand/contract_client_v2.py:343-349 | the list is the count box, one rule box per value, and a set box for each non-empty text; it fails exactly when a field for one is missing or unencodable |
| ContractClient.EncodeCall | algorand/contract_client_v2.py:302-350 | fails exactly when something does not fit; otherwise the contract decodes the very arrays that were sent, with the first eight boxes |
| ContractClient.SubmitPolicyCheck | algorand/contract_client_v2.py:302-385 | succeeds exactly when delivered, encodable and accepted; the result is the contract's string and all-pass flag; on success, and on a failure that changed anything, exactly the client's call was confirmed; at most one receipt is spent, exactly one if minted |
| ContractClient.BoxCoverage | contracts/policy_contract.py:137-165 | when arrays follow the stored rules and 1 + rules + set values is at most eight, no assertion on boxes or lengths fires |
| ContractClient.TooManyRules | algorand/contract_client_v2.py:343-350 | with more than seven rules every check is refused, because the box of the eighth is cut off the list, or two boxes collide |
| ContractClient.EmptyTextRefuses | algorand/contract_client_v2.py:347-349 | a public set rule that gets the empty text makes the check refused, because its box is not listed, or two boxes collide |
| TenantStores.TenantStore.CreateOrg | tenancy/store.py:82-96 | fails exactly for a taken organisation id or API key hash, and otherwise adds the row |
| TenantStores.TenantStore.AddAgent | tenancy/store.py:120-126 | adds the agent, and keeps an existing one as it is |
| TenantStores.TenantStore.AddRule | tenancy/store.py:145-170 | inserts or replaces the one row of that index |
| TenantStores.TenantStore.DeleteOrg | tenancy/store.py:182-187 | removes the organisation, its agents and its rules, and nothing else |
| TenantStores.TenantStore.GetRules | tenancy/store.py:172-180 | all rules of the agent and only those, each with its row, by strictly ascending index |
| TenantStores.ListingIsListing | tenancy/store.py:172-180 | the specified listing is sorted, complete and exact, so `GetRules` and everything stated about its result speak of every stored rule |
| TenantStores.ListingOfPrefix | tenancy/store.py:172-180 | without gaps in the indices the position in the listing is the index |
| Provisioning.RegisterRow | tenancy/provisioning.py:112-114 | however the call ends, chain and store stand at one of the named points of progress; success means the rule is on-chain and mirrored under the contract's index |
| Provisioning.RegisterSensitivePolicy | tenancy/provisioning.py:161-188 | the same for a private numeric policy; on success the on-chain rule is mode 2, operator 0, value 0, the field and the hash of the canonical document, the stored row the same with the envelope, and no set box changes |
| Provisioning.RegisterSensitiveSetPolicy | tenancy/provisioning.py:191-221 | the same for a private set policy, and the refusal of other operators |
| Provisioning.NothingShows | tenancy/provisioning.py:179-186 | two private documents with one field and one commitment lead, however far their registrations got, to the same chain and to stored rows that differ at most in the envelope |
| Provisioning.SeedSet | tenancy/provisioning.py:116-119 | the first n values are in the on-chain set and no other was added; all of them on success; success whenever all are encodable and delivered |
| Provisioning.RegisterPolicy | tenancy/provisioning.py:90-122 | the point that a public policy reached: nothing, rule on-chain, or also mirrored with so many values seeded; success means that all are, and comes whenever everything is encodable and delivered; a failure can be at any point, the last included if its confirmation is lost |
| Provisioning.BuildCheckArgs | tenancy/provisioning.py:232-268 | one entry per stored rule in index order: a private rule attests the check of its decrypted document, and false where the field is missing or nothing was encrypted; a public one gives the field's text or number, or the empty text or zero; it fails exactly when an entry cannot be made |
| Provisioning.EvalDocMeans | tenancy/provisioning.py:140-158 | what the private check means for each operator code, for unknown codes, and where it raises |
| Provisioning.ReverifyMode2 | tenancy/provisioning.py:271-294 | the loop returns the first error, or a report on every private rule and on nothing else: the commitment matches exactly if the envelope decrypts to a document whose canonical form hashes to it, and there is a bit exactly if it decrypts and the field is present, namely the check of that document |
| Provisioning.SwappedDocumentIsReported | tenancy/provisioning.py:282-285 | an envelope with a document of another canonical form than the committed one is reported as not matching, or the two canonical forms collide |
| Provisioning.ReportsAreComplete | tenancy/provisioning.py:278-294 | a report is returned exactly if it is that of a private rule of the listing |
| Provisioning.PrivateAgreement | tenancy/provisioning.py:224-294 | the auditor's report on a private rule has a matching commitment and the bit that was attested at that index |
| OnboardingProof.OthersFramed | api/main.py:376-402 | an event of one tenant keeps the invariant of every other |
| OnboardingProof.FreshStep | tenancy/provisioning.py:84-87 | no box is ever written for an agent id that was not issued |
| OnboardingProof.InvStep | api/main.py:376-402 | every event, a crash or rollback included, keeps the whole invariant |
| OnboardingTheorems.InvReachable | api/main.py:376-402 | the invariant holds in every reachable state |
| OnboardingTheorems.MirrorInvariant | tenancy/provisioning.py:112-119 | in every reachable state the stored rules of a live tenant are its on-chain rules, equal in all five fields: all of them exactly when no rule waits to be stored, all but the last exactly when one does; a completed run has one per policy |
| OnboardingTheorems.OthersUnaffected | api/main.py:398-402 | while a run goes on, the other organisations' rows are what the other events alone produce |
| OnboardingTheorems.FailedRunLeavesNoTrace | api/main.py:398-402 | after a rollback the tables are those the other events alone would have produced, whatever was interleaved |
| OnboardingErasure.FailedRunErased | api/main.py:376-402 | the events up to a failure without those of the failed run are themselves an execution, which ends in the same tables, the same runs and the same boxes of all other tenants |
| OnboardingTheorems.RowStable | tenancy/store.py:145-170 | a stored rule of a live tenant and its organisation's key never change |
| AuditorRecheck.RecheckReturns | tenancy/provisioning.py:278-294 | after an audit, in any later reachable state, the recheck returns exactly if no private rule added since has a present field its document cannot be evaluated on; the audited rules never stop it |
| AuditorRecheck.AuditorAgrees | tenancy/provisioning.py:271-294 | if no rule added since stops it, the recheck reports for every audited private rule whose field is present a matching commitment and the attested bit |
| OnboardingStability.LiveBetween | tenancy/provisioning.py:84-87 | a tenant that is live in two states of an execution is live in all states between them |
| OnboardingStability.ListingGrows | tenancy/store.py:145-180 | the rules listed for a live tenant are a prefix of every later listing |
| OnboardingStability.InputsStay | tenancy/provisioning.py:232-268 | what was gathered for a check of a completed tenant still serves in every later state |
| OnboardingTheorems.ReachableVerdict | contracts/policy_contract.py:117-210 | in every reachable state a check of a live tenant with no rule waiting to be stored is accepted, each rule has the verdict of its policy, and all pass exactly when every policy in force holds; for a completed run these are all its policies |
| OnboardingRuns.RegistrationPath | tenancy/provisioning.py:90-122 | at whatever point a registration stopped, a path of the machine leads to the same boxes and tables |
| OnboardingRuns.Extend | api/main.py:369-413 | an execution continued by the events of a call is an execution, so every theorem above applies to it |
| OnboardingCompletes.OnboardingCanComplete | api/main.py:376-411 | from every state of every execution a tenant that may begin can be onboarded completely, with any encodable policies, and no other run is affected |
| PolicyVerdict.EnforcedSets | tenancy/provisioning.py:116-119 | the on-chain sets of a run, at any point of it, are those of the policies in force |
| PolicyVerdict.RuleVerdict | contracts/policy_contract.py:151-188 | the contract's verdict on a rule, given arrays built from the store, is the truth of the policy as enforced (a public set policy with the set of its field) |
| PolicyVerdict.EndToEndVerdict | sdk/audit_flow_v2.py:86-104 | all rules of a tenant get a verdict, that of the policy in force, and all pass exactly when all policies in force hold, public or private, numeric or set |
| DeclaredPolicies.SharedSetsDecide | algorand/contract_client_v2.py:89-92 | the enforced policy differs from the written one exactly when it does not list the value but another public set policy on its field does |
| DeclaredPolicies.DecisionDiffers | contracts/policy_contract.py:151-200 | the decision by the enforced policies and by the written ones, each in terms of which policies borrow a value; they differ exactly when all others hold and only whitelists or only blacklists borrow |
| DeclaredPolicies.EnforcedAsWritten | contracts/policy_contract.py:151-200 | with at most one public set policy per field both decisions agree on every input |
| DeclaredPolicies.HoldsAloneMeans | api/main.py:350-358 | what a policy of an onboarding request says, for each of its eight operator codes |
| PolicyVerdict.UnstoredRuleRefuses | contracts/policy_contract.py:140-142 | while a rule is on-chain but not stored, no check built from the store is accepted |
| PolicyVerdict.ConfirmedExactly | contracts/policy_contract.py:135-208 | a check of a live tenant is confirmed exactly if no rule waits to be stored and, should all policies in force hold, a receipt is left |
| Pipeline.CheckDecision | sdk/audit_flow_v2.py:86-100 | succeeds exactly when delivered and arrays can be built from the store, sent, and are confirmed; the verdict is then the contract's on them; whenever the contract changed, exactly that call was confirmed |
| Pipeline.ExecutePipeline | sdk/audit_flow_v2.py:46-133 | succeeds exactly when the upload and the delivery did, the action has an id, and arrays can be built, sent, and are confirmed; then, and only then, the record enters the batch, with the verdict of its check and "approved" exactly if minted; every call, whatever its end, is a run of the audit service |
| Provisioning.ArgsUnique | tenancy/provisioning.py:232-268 | listing, key and fields determine the arrays |
| Receipts.ReceiptsDropByMints | contracts/policy_contract.py:190-208 | over any run of contract calls the receipts drop by exactly the number of confirmed checks in which every rule passed |
| Receipts.ApprovedNeverExceedReceipts | sdk/audit_flow_v2.py:89-115 | over any run of calls, recordings and marks, a row is approved exactly if its transaction minted, different rows have different transactions, the minting transactions are the confirmed all-pass checks and as many as the receipts spent, so approved rows never exceed them |
| Receipts.AuditJoin | sdk/audit_flow_v2.py:89-115 | the events of one call can follow any run, so the theorem above speaks of any sequence of pipelines |
| Receipts.MarkKeepsRecords | batcher/store.py:216-225 | a mark changes no record |
| ApprovedRecords.ApprovedIffPoliciesHold | sdk/audit_flow_v2.py:86-113 | in every reachable state a checked record of a live tenant is minted and approved exactly when every policy in force holds, and its result string gives each policy's truth and layer |
| ApprovedRecords.ApprovedAsWritten | sdk/audit_flow_v2.py:86-113 | for a completed tenant a record is approved exactly when all policies hold as they were written, if no two public set policies share a field; and in general except exactly when the others hold and only whitelists or only blacklists borrow a value |
| ApprovedRecords.SinglePolicy | sdk/audit_flow_v2.py:86-113 | for a completed tenant with one policy, public or private, a record is approved exactly as the operator code says of the field, for each of the eight codes |
| MissingFields.MissingPrivateFieldFails | tenancy/provisioning.py:224-227 | in every reachable state a confirmed check in which the field of a private policy is missing is never minted or approved, spends no receipt, and its token for that policy is an attested failure |
| MissingFields.MissingNumberIsZero | tenancy/provisioning.py:263-266 | where the field of a public numeric policy is missing, its verdict is that of zero |
| MissingFields.MissingTextRefuses | tenancy/provisioning.py:259-262 | where the field of a public set policy is missing, no check is confirmed, or two boxes collide |
| ApprovedRecords.AnsweredExactly | sdk/audit_flow_v2.py:86-104 | in every reachable state a gathered check is answered exactly if no rule waits to be stored and, should all policies in force hold, a receipt is left |
| ApprovedRecords.AuditReachable | sdk/audit_flow_v2.py:46-133 | in every reachable state the pipeline succeeds exactly if delivered and so answered, and the row it adds is approved exactly if the policies in force hold and tells of each whether it does |
| ApprovedRecords.ApprovedLater | sdk/audit_flow_v2.py:86-100 | for a completed tenant arrays built in one state and confirmed in any later one are answered as exactly, and the record is approved exactly if the policies hold |
| WorkedExample.ApprovedUpToTheLimit | sdk/audit_flow_v2.py:86-113 | a tenant with the policy "amount <= 100" is onboarded, every amount meets the assumptions of the theorems above, and the record is approved exactly up to the limit |
| WorkedExample.ApprovedAgainstAWhitelist | contracts/policy_contract.py:161-165 | a tenant with two whitelists on one field is onboarded, its order is checked by the contract, and the record is approved although the second whitelist does not list the value |
| WorkedExample.LaterRuleStopsTheAuditor | tenancy/provisioning.py:278-294 | an execution in which an order is audited and can be rechecked, until a second private rule on its field is stored, after which the recheck of that order raises |
| BatchStores.BatchStore.Add | batcher/store.py:109-140 | refuses a missing action id; otherwise inserts or replaces exactly that row, pending and with the time of the addition |
| BatchStores.BatchStore.SelectPending | batcher/store.py:167-175 | every pending row once, oldest first, ties in any order |
| BatchStores.BatchStore.Flush | batcher/store.py:154-199 | fails exactly when nothing is pending; otherwise a batch of all pending rows with the root of their hashes, and nothing changes |
| BatchStores.BatchStore.MarkAnchored | batcher/store.py:201-230 | the loop marks exactly the rows of the batch with its id, their position and their proof, and records the batch |
| AnchorContracts.AnchorContract.SubmitRoot | contracts/anchor_contract.py:62-88 | only the creator may submit; it overwrites the one box of the batch id |
| AnchorContracts.RootReadBack | contracts/anchor_contract.py:82-108 | a submitted root is what `get_root` then returns, and no other batch's root changes unless two batch ids collide |
| AnchorContracts.SubmitAnchorRoot | algorand/contract_client_v2.py:393-432 | exactly when it succeeds, and what it leaves on-chain on success, loss and failure |
| AnchorContracts.GetAnchorRoot | algorand/contract_client_v2.py:435-453 | decoding the raw box gives exactly the root on the chain |
| AnchorContracts.Verify | api/main.py:446-474 | not found exactly for an unknown action; pending exactly without a batch id or proof; root unavailable exactly where the chain has none for the batch id; otherwise anchored, valid exactly if the proof leads from the leaf to the root on the chain |
| BatchAnchor.FlushAndAnchor | batcher/anchor.py:13-53 | on success all pending rows are marked under the submitted root; on failure the tables are unchanged; it succeeds when delivered; every call follows a path of the machine |
| BatchAnchor.Extend | batcher/anchor.py:13-53 | an execution followed by the events of a call is an execution |
| BatchAnchor.RowsVerifyAfterCall | batcher/anchor.py:32-53 | after a call that follows any execution without a conflicting re-add, every row with a batch id verifies |
| Anchoring.RootKept | contracts/anchor_contract.py:83-88 | no event overwrites the root of another batch |
| Anchoring.InvStep | batcher/anchor.py:32-50 | every event keeps the whole invariant |
| AnchoringTheorems.InvReachable | batcher/anchor.py:32-50 | the invariant holds after every execution |
| AnchoringTheorems.FoldInjective | batcher/merkle.py:109-112 | one proof leads two different leaves to one root only through a collision, which is returned |
| AnchoringTheorems.VerifyExactly | api/main.py:446-474 | with no assumption on additions, a row is pending or anchored, and an anchored one verifies exactly when its leaf is the one its batch was built with |
| AnchoringTheorems.AnchoredRecordsVerify | api/main.py:446-474 | with fresh batch ids and no conflicting re-add in flight, every row with a batch id verifies, under any interleaving of additions, overlapping flushes, losses, crashes and marks |
| AnchoringTheorems.ReAddInFlightFails | batcher/store.py:132-137 | a concrete execution with a conflicting re-add after which the row fails verification |
| AnchoringTheorems.Conservation | batcher/store.py:109-230 | an addition adds one pending id, a mark takes exactly its batch out of the pending ids, and nothing else changes a row |
| AnchoringTheorems.PendingOrAnchored | batcher/store.py:132-225 | in every reachable state an added action is exactly one of pending and anchored |
| AnchoringTheorems.RowsAreTheAdded | batcher/store.py:132-225 | after every execution the table holds exactly the actions that were added; none is ever lost |
| AnchoringTheorems.AddedIsPendingOrAnchored | batcher/store.py:132-225 | every action that was added is, in every later state, exactly one of pending and anchored |
| AnchoringTheorems.RowsCarryTheirTime | batcher/store.py:132-137 | after every execution a row carries the time of its last addition, whatever was marked in between |
| AnchoringTheorems.FlushFollowsAdditions | batcher/store.py:167-175 | after every execution a batch lists its entries in the order in which they were last added |
| AnchoringPositions.FullyAnchoredReachable | batcher/store.py:132-225 | in every state of an execution whose events leave recorded batches alone, every recorded batch has each of its entries anchored at its own position |
| AnchoringPositions.OrderlyReachable | batcher/store.py:132-225 | events leave recorded batches alone when batches in flight share no action and no action of a recorded batch is added again |
| AnchoringPositions.PositionsAreABijection | batcher/store.py:211-225 | in every state of such an execution the rows with a recorded batch's id and the positions below its recorded leaf count correspond one to one |
| Service.RegisterSpec | api/main.py:382-396 | each policy is registered in its declared form with the progress named, succeeds when nothing hinders it, and touches no other organisation |
| Service.RegisterAll | api/main.py:382-402 | the loop over the policies: all registered, or the point of failure is followed by a rollback path; it succeeds when nothing hinders it |
| Service.Onboard | api/main.py:369-413 | a conflict changes nothing; a failure leaves the tables without the organisation; success and failure each follow a path of the onboarding machine, ending in a completed run or in none; the agent is stored with its name; it succeeds when nothing hinders it |
| Service.PolicyBreakdown | api/main.py:733-748 | one entry per token, with the field of the rule at that index, its verdict and its layer |
| Service.BreakdownOfCheck | api/main.py:733-748 | on a result of the contract the breakdown gives every rule's own verdict and layer |

## Left out

- SHA-256, AES-GCM, canonical JSON and UTF-8 are library code: the first is an arbitrary function, encryption is assumed only to decrypt under its own key and never to give the empty text, and texts are their bytes. The members of a private set are a multiset, since the code sorts them.
- `leaf_hash` is an arbitrary function of a record, so key-order independence of the JSON form is not modelled.
- Signing, fees, opcode budgets, minimum balances, the limit on log size, and the network's limit on boxes and assets together are not modelled (a check also passes one asset, so one with exactly eight boxes may be refused by the network); the AVM's rule that a call may touch only boxes it references, and the client's cut of the list to eight, are.
- Batch ids, agent ids, nonces, API key hashes, transaction ids and times are parameters. The machines assume fresh batch ids, agent ids and transaction ids, as the code's random parts and the ledger are meant to make them; a repeated API key hash is an error path.
- Reads of the clock and the IPFS upload are reduced to a parameter (a failed upload is an error path); the encrypted envelope, its download and the decryption section of the verify response are not part of the model.
- The org and agent ids of the onboarding machine are texts of fewer than 65536 bytes. `Service.Onboard` itself takes any text: with a longer one it fails at the first policy.
- Onboarding.Enabled: does not describe removal from a set, since no part of the backend calls `remove_from_set` during a run; the contract method is `PolicyContract.RemoveFromSet`.
- PolicyVerdict.EndToEndVerdict: assumes operator codes 1 to 8 and a value of the compared kind for every field, because the contract reads unknown codes as "not equal" while the private evaluation reads them as false, and missing public fields are replaced by 0 or the empty text; `JudgeMeans`, `EvalDocMeans` and `MissingFields` say what happens then.
- OnboardingTheorems.ReachableVerdict: assumes at most eight box references and a receipt left in the contract, and says nothing of a rule that waits to be stored (`PolicyVerdict.UnstoredRuleRefuses` does); the refusals otherwise are in `PolicyContract.CheckAndMint` and `ContractClient.SubmitPolicyCheck`.
- PolicyContracts.PolicyContract.CheckRule: is the body of the contract's loop as a method of its own.
- The contract's `initialize` and `opt_in_asa`, a refill of receipts, and readers such as `get_batch`, `recent_batches`, `is_full` and `list_agents` are not part of this model: nothing else depends on them.
- `_parse_policy_result`, the record summary, the dashboard, exports and the recent-entries queue format data for display.
- Authentication by API key, payment by x402, the agents, the client SDK, the front end and the scripts are not part of this model.
