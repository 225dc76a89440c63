/**
 The audit pipeline of sdk/audit_flow_v2.py: check a decision against its tenant's policies, mint
 a receipt, and hand the record to the batch store.
 */
module Pipeline {
  import opened Basics
  import opened PolicyContracts
  import opened TenantStores
  import opened ContractClient
  import opened Provisioning
  import opened BatchStores
  import opened Receipts

  datatype PipelineError = UnknownOrg | UploadFailed | BadFields(reason: EvalError) | CheckFailed(cause: ClientError)
    | NoActionId

  /** The record with the verdict written into it: the enforced decision follows the receipt. */
  function WithVerdict(record: AuditRecord, result: PolicyCheckResult, txId: Text): AuditRecord {
    record.(policyResult := result.policyResult, policyTxId := txId,
            asaMinted := result.asaMinted, approved := result.asaMinted)
  }

  // ----- The pipeline -----

  /** The decision was checked with arrays built from the store, and `result` is the contract's verdict on them. */
  ghost predicate Checked(crypto: Crypto, tables: Tables, sha: Hash, c: Chain, org: Text, agent: Text, actionId: Text,
                          ipfsHash: Digest, fields: Fields, a: CheckArgs,
                          result: PolicyCheckResult) {
    && org in tables.orgs
    && ArgsFor(crypto, tables.orgs[org].encKey, Listing(tables, org, agent), fields, a)
    && Confirms(sha, c, org, agent, actionId, ipfsHash, a, result)
  }

  /** Arrays can be built from the store, they can be sent, and the contract confirms a check with them. */
  ghost predicate Answerable(crypto: Crypto, tables: Tables, sha: Hash, c: Chain, org: Text, agent: Text, actionId: Text,
                             ipfsHash: Digest, fields: Fields) {
    && org in tables.orgs
    && exists b :: ArgsFor(crypto, tables.orgs[org].encKey, Listing(tables, org, agent), fields, b)
         && Confirmable(sha, c, org, agent, actionId, ipfsHash, b)
  }

  /** With the arrays at hand, it only remains whether they can be sent and are confirmed. */
  lemma AnswerableWith(crypto: Crypto, tables: Tables, sha: Hash, c: Chain, org: Text, agent: Text, actionId: Text,
                       ipfsHash: Digest, fields: Fields, a: CheckArgs)
    requires org in tables.orgs && ArgsFor(crypto, tables.orgs[org].encKey, Listing(tables, org, agent), fields, a)
    ensures Answerable(crypto, tables, sha, c, org, agent, actionId, ipfsHash, fields) <==>
      Confirmable(sha, c, org, agent, actionId, ipfsHash, a)
  {
    if Answerable(crypto, tables, sha, c, org, agent, actionId, ipfsHash, fields) {
      var key, rows := tables.orgs[org].encKey, Listing(tables, org, agent);
      var b :| ArgsFor(crypto, key, rows, fields, b) && Confirmable(sha, c, org, agent, actionId, ipfsHash, b);
      ArgsUnique(crypto, key, rows, fields, a, b);
    }
  }

  /** Where a stored rule has no slot, there are no arrays. */
  lemma NotAnswerable(crypto: Crypto, tables: Tables, sha: Hash, c: Chain, org: Text, agent: Text, actionId: Text,
                      ipfsHash: Digest, fields: Fields, i: nat)
    requires org in tables.orgs && i < |Listing(tables, org, agent)|
    requires SlotFor(crypto, tables.orgs[org].encKey, Listing(tables, org, agent)[i].1, fields).Failure?
    ensures !Answerable(crypto, tables, sha, c, org, agent, actionId, ipfsHash, fields)
  {
  }

  /** Builds the arguments from the decision and submits them. */
  method CheckDecision(crypto: Crypto, tenants: TenantStore, contract: PolicyContract, org: Text, agent: Text,
                       actionId: Text, ipfsHash: Digest, fields: Fields, net: Network)
    returns (r: Result<PolicyCheckResult, PipelineError>, ghost a: CheckArgs)
    requires org in tenants.orgs
    modifies contract
    ensures r.Success? <==>
      && net.Delivered?
      && Answerable(crypto, tenants.State(), contract.sha, old(contract.State()), org, agent, actionId, ipfsHash, fields)
    ensures r.Success? ==> Checked(crypto, tenants.State(), contract.sha, old(contract.State()), org, agent, actionId,
                                   ipfsHash, fields, a, r.value)
    ensures r.Success? || contract.State() != old(contract.State()) ==>
      Took(contract.sha, old(contract.State()), contract.State(), org, agent, actionId, ipfsHash, a)
    ensures r.Success? ==> contract.receipts == old(contract.receipts) - (if r.value.asaMinted then 1 else 0)
    ensures r.Failure? ==> old(contract.receipts) - 1 <= contract.receipts <= old(contract.receipts)
  {
    a := CheckArgs([], [], [], []);
    var built := BuildCheckArgs(crypto, tenants, org, agent, fields);
    if built.Failure? {
      ghost var rows := Listing(tenants.State(), org, agent);
      ghost var i :| 0 <= i < |rows| && SlotFor(crypto, OrgKey(tenants.orgs, org), rows[i].1, fields).Failure?;
      NotAnswerable(crypto, tenants.State(), contract.sha, contract.State(), org, agent, actionId, ipfsHash, fields, i);
      r := Failure(BadFields(built.error));
      return;
    }
    a := built.value;
    AnswerableWith(crypto, tenants.State(), contract.sha, contract.State(), org, agent, actionId, ipfsHash, fields, a);
    var checked := SubmitPolicyCheck(contract, org, agent, actionId, ipfsHash, built.value, net);
    match checked
    case Success(result) => r := Success(result);
    case Failure(error) => r := Failure(CheckFailed(error));
  }

  /** The audit service is in state `s`, where `txId` is still unused. */
  ghost predicate Linked(s: Audit, chain: Chain, rows: map<Text, LeafRow>, txId: Text) {
    && s.chain == chain && s.rows == rows
    && txId !in s.confirmed && txId !in s.recorded && txId !in s.minted
  }

  /** `events` lead from `s` to the given chain and rows. */
  ghost predicate LeadsTo(sha: Hash, leafHash: LeafHash, s: Audit, events: seq<AuditEvent>, chain: Chain,
                          rows: map<Text, LeafRow>) {
    var after := AuditAfter(sha, leafHash, s, events);
    after.Some? && after.value.chain == chain && after.value.rows == rows
  }

  lemma SubmittedPath(sha: Hash, leafHash: LeafHash, s: Audit, txId: Text, k: ContractCall)
    requires txId !in s.confirmed && Confirmed(sha, s.chain, k)
    ensures LeadsTo(sha, leafHash, s, [Submitted(txId, k)], AfterCall(sha, s.chain, k), s.rows)
  {
    AuditSnoc(sha, leafHash, s, [], s, Submitted(txId, k));
    assert [] + [Submitted(txId, k)] == [Submitted(txId, k)];
  }

  /** The verdict that is recorded is that of the call with its transaction id. */
  lemma RecordedPath(sha: Hash, leafHash: LeafHash, s: Audit, txId: Text, k: ContractCall, final: AuditRecord, now: int)
    requires Linked(s, s.chain, s.rows, txId) && Confirmed(sha, s.chain, k)
    requires final.policyTxId == txId && (final.approved <==> Mints(sha, s.chain, k))
    ensures LeadsTo(sha, leafHash, s, [Submitted(txId, k), Recorded(final, now)], AfterCall(sha, s.chain, k),
                    s.rows[final.actionId := PendingRow(leafHash, final, now)])
  {
    var submitted := NextAudit(sha, leafHash, s, Submitted(txId, k));
    AuditSnoc(sha, leafHash, s, [], s, Submitted(txId, k));
    AuditSnoc(sha, leafHash, s, [] + [Submitted(txId, k)], submitted, Recorded(final, now));
    assert [] + [Submitted(txId, k)] + [Recorded(final, now)] == [Submitted(txId, k), Recorded(final, now)];
  }

  /**
   `ipfsHash` is the digest of the content id of the uploaded envelope, or None if the upload
   failed; `txId` is the id of the policy transaction.  `events` is what the call does to the audit
   service when that is in state `s`.
   */
  method ExecutePipeline(crypto: Crypto, tenants: TenantStore, batch: BatchStore, contract: PolicyContract,
                         record: AuditRecord, fields: Fields, org: Text, agent: Text,
                         ipfsHash: Option<Digest>, net: Network, txId: Text, now: int, ghost s: Audit)
    returns (r: Result<AuditRecord, PipelineError>, ghost a: CheckArgs,
             ghost result: PolicyCheckResult, ghost events: seq<AuditEvent>)
    modifies batch, contract
    ensures r.Success? <==>
      && ipfsHash.Some? && net.Delivered? && record.actionId != []
      && Answerable(crypto, tenants.State(), contract.sha, old(contract.State()), org, agent, record.actionId,
                    ipfsHash.value, fields)
    ensures r.Success? ==>
      && ipfsHash.Some? && record.actionId != [] && r.value == WithVerdict(record, result, txId)
      && Checked(crypto, tenants.State(), contract.sha, old(contract.State()), org, agent, record.actionId,
                 ipfsHash.value, fields, a, result)
      && batch.leaves == old(batch.leaves)[record.actionId := PendingRow(batch.leafHash, r.value, now)]
    ensures r.Failure? ==> batch.leaves == old(batch.leaves)
    ensures batch.batches == old(batch.batches)
    ensures r.Success? ==> contract.receipts == old(contract.receipts) - (if r.value.approved then 1 else 0)
    ensures r.Failure? ==> old(contract.receipts) - 1 <= contract.receipts <= old(contract.receipts)
    ensures Linked(s, old(contract.State()), old(batch.leaves), txId) ==>
      LeadsTo(contract.sha, batch.leafHash, s, events, contract.State(), batch.leaves)
  {
    a, result, events := CheckArgs([], [], [], []), PolicyCheckResult([], false), [];
    if org !in tenants.orgs {
      r := Failure(PipelineError.UnknownOrg);
      return;
    }
    if ipfsHash.None? {
      r := Failure(UploadFailed);
      return;
    }
    ghost var linked := Linked(s, contract.State(), batch.leaves, txId);
    var checked;
    checked, a := CheckDecision(crypto, tenants, contract, org, agent, record.actionId, ipfsHash.value, fields, net);
    if linked && (checked.Success? || contract.State() != old(contract.State())) {
      events := [Submitted(txId, CheckCall(contract.sha, org, agent, record.actionId, ipfsHash.value, a))];
      SubmittedPath(contract.sha, batch.leafHash, s, txId, events[0].k);
    }
    if checked.Failure? {
      r := Failure(checked.error);
      return;
    }
    result := checked.value;
    var final := WithVerdict(record, checked.value, txId);
    var added := batch.Add(final, now);
    if added.Failure? {
      r := Failure(NoActionId);
      return;
    }
    if linked {
      RecordedPath(contract.sha, batch.leafHash, s, txId, events[0].k, final, now);
      events := [Submitted(txId, events[0].k), Recorded(final, now)];
    }
    r := Success(final);
  }
}
