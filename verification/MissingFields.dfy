/**
 Decisions that leave out the field of a policy, in every reachable state: a private policy fails, a
 public numeric one is compared with zero, and with a public set one the check is refused.
 */
module MissingFields {
  import opened Basics
  import opened Arc4
  import opened BoxKeys
  import opened ResultString
  import opened PolicyContracts
  import opened TenantStores
  import opened ContractClient
  import opened Provisioning
  import opened BatchStores
  import opened Onboarding
  import opened OnboardingTheorems
  import opened OnboardingStability
  import opened Pipeline

  /** A confirmed check of a live tenant in state `i`; nothing is assumed of the decision. */
  ghost predicate Audited(crypto: Crypto, boxes: iset<Box>, worlds: seq<World>, events: seq<Event>, i: nat, t: Tenant,
                          record: AuditRecord, ipfsHash: Digest, fields: Fields, a: CheckArgs, result: PolicyCheckResult) {
    && IsExecution(crypto, boxes, worlds, events) && CollisionFree(crypto, boxes)
    && i < |worlds| && t in worlds[i].runs
    && Checked(crypto, worlds[i].tables, crypto.sha, worlds[i].chain, t.org, t.agent, record.actionId, ipfsHash, fields, a, result)
  }

  /** Policy `k` in the store, on-chain and in the arrays of the check. */
  lemma PolicyOfCheck(crypto: Crypto, boxes: iset<Box>, worlds: seq<World>, events: seq<Event>, i: nat, t: Tenant,
                      record: AuditRecord, ipfsHash: Digest, fields: Fields, a: CheckArgs, result: PolicyCheckResult, k: nat)
    returns (row: RuleRow)
    requires Audited(crypto, boxes, worlds, events, i, t, record, ipfsHash, fields, a, result)
    requires k < InStore(worlds[i].runs[t])
    ensures k < |worlds[i].runs[t].specs| && k < |a.valuesNum| == |a.valuesStr| == |a.attested|
    ensures t.org in worlds[i].tables.orgs
    ensures EntryMeans(crypto, worlds[i].tables.orgs[t.org].encKey, row, fields, a.valuesNum[k], a.valuesStr[k], a.attested[k])
    ensures RowAgrees(crypto, worlds[i].chain, worlds[i].tables.orgs[t.org].encKey, t, k, row, worlds[i].runs[t].specs[k])
  {
    var w := worlds[i];
    var rows := Listing(w.tables, t.org, t.agent);
    InvReachable(crypto, boxes, worlds, events, i);
    assert TenantInv(crypto, boxes, w, t);
    ListingIsListing(w.tables, t.org, t.agent);
    ListingOfLive(crypto, boxes, worlds, events, t, i, rows);
    row := rows[k].1;
    assert MirrorAgrees(crypto, w.chain, w.tables, t, k, w.runs[t].specs[k]);
    EntriesMean(crypto, w.tables.orgs[t.org].encKey, rows, fields, a);
  }

  /** The verdict on rule `k` of a confirmed check, and where it stands in the result. */
  lemma VerdictOfCheck(sha: Hash, c: Chain, t: Tenant, actionId: Text, ipfsHash: Digest, a: CheckArgs,
                       result: PolicyCheckResult, k: nat, rule: PolicyRule)
    returns (verdict: Verdict)
    requires Confirms(sha, c, t.org, t.agent, actionId, ipfsHash, a, result) && k < |a.valuesNum| == |a.valuesStr| == |a.attested|
    requires RuleAt(sha, c, t, k) == Some(rule)
    ensures Fits64(a.valuesNum[k]) && Fits16(|a.valuesStr[k]|)
    ensures verdict == Judge(sha, c, t, rule, a.valuesNum[k], a.valuesStr[k], a.attested[k])
    ensures k < |Split(result.policyResult)|
    ensures Breakdown(Split(result.policyResult)[k]) == (verdict.passed, LayerName(verdict.layer))
    ensures !verdict.passed ==> !result.asaMinted
  {
    assert Tenant(t.org, t.agent) == t;
    var call, args := CallFor(sha, t.org, t.agent, actionId, ipfsHash, a), Arrays(a);
    var verdicts := Outcome(sha, c, call, t, args).value;
    verdict := verdicts[k];
    assert VerdictAt(sha, c, call, t, args, k) == Some(verdict);
    SplitRender(verdicts);
    TokenShape(verdict);
  }

  /**
   A confirmed check in which the field of a private policy is missing is never minted or approved,
   spends no receipt, and its token for that policy is an attested failure.
   */
  lemma MissingPrivateFieldFails(crypto: Crypto, boxes: iset<Box>, worlds: seq<World>, events: seq<Event>, i: nat, t: Tenant,
                                 record: AuditRecord, txId: Text, ipfsHash: Digest, fields: Fields, a: CheckArgs,
                                 result: PolicyCheckResult, k: nat)
    requires Audited(crypto, boxes, worlds, events, i, t, record, ipfsHash, fields, a, result)
    requires k < InStore(worlds[i].runs[t]) && k < |worlds[i].runs[t].specs|
    requires worlds[i].runs[t].specs[k].isPrivate && worlds[i].runs[t].specs[k].field !in fields
    ensures
      var final := WithVerdict(record, result, txId);
      && !final.approved && !final.asaMinted
      && k < |Split(final.policyResult)| && Breakdown(Split(final.policyResult)[k]) == (false, ATTESTED)
    ensures Took(crypto.sha, worlds[i].chain, worlds[i].chain, t.org, t.agent, record.actionId, ipfsHash, a)
  {
    var row := PolicyOfCheck(crypto, boxes, worlds, events, i, t, record, ipfsHash, fields, a, result, k);
    var verdict := VerdictOfCheck(crypto.sha, worlds[i].chain, t, record.actionId, ipfsHash, a, result, k, MirroredRule(row));
    JudgeMeans(crypto.sha, worlds[i].chain, t, MirroredRule(row), a.valuesNum[k], a.valuesStr[k], a.attested[k]);
    NotMinted(crypto.sha, worlds[i].chain, t, record.actionId, ipfsHash, a, result);
  }

  lemma NotMinted(sha: Hash, c: Chain, t: Tenant, actionId: Text, ipfsHash: Digest, a: CheckArgs, result: PolicyCheckResult)
    requires Confirms(sha, c, t.org, t.agent, actionId, ipfsHash, a, result) && !result.asaMinted
    ensures Took(sha, c, c, t.org, t.agent, actionId, ipfsHash, a)
  {
    NothingSpent(sha, c, CallFor(sha, t.org, t.agent, actionId, ipfsHash, a), Tenant(t.org, t.agent), Arrays(a));
  }

  lemma NothingSpent(sha: Hash, c: Chain, call: Call, t: Tenant, args: CheckArrays)
    requires Accepts(sha, c, call, t, args) && !AllPassed(Outcome(sha, c, call, t, args).value)
    ensures Confirmed(sha, c, CheckAndMintCall(call, t, args))
    ensures AfterCall(sha, c, CheckAndMintCall(call, t, args)) == c
  {
  }

  /** Where the field of a public numeric policy is missing, zero is compared. */
  lemma MissingNumberIsZero(crypto: Crypto, boxes: iset<Box>, worlds: seq<World>, events: seq<Event>, i: nat, t: Tenant,
                            record: AuditRecord, ipfsHash: Digest, fields: Fields, a: CheckArgs,
                            result: PolicyCheckResult, k: nat)
    requires Audited(crypto, boxes, worlds, events, i, t, record, ipfsHash, fields, a, result)
    requires k < InStore(worlds[i].runs[t]) && k < |worlds[i].runs[t].specs|
    requires
      var spec := worlds[i].runs[t].specs[k];
      !spec.isPrivate && 1 <= spec.operator <= 6 && spec.field !in fields
    ensures k < |Split(result.policyResult)|
    ensures
      var spec, passed := worlds[i].runs[t].specs[k], Breakdown(Split(result.policyResult)[k]).0;
      && (spec.operator == 1 ==> (passed <==> 0 < spec.valueNum))
      && (spec.operator == 2 ==> (passed <==> 0 <= spec.valueNum))
      && (spec.operator == 3 ==> (passed <==> 0 > spec.valueNum))
      && (spec.operator == 4 ==> (passed <==> 0 >= spec.valueNum))
      && (spec.operator == 5 ==> (passed <==> 0 == spec.valueNum))
      && (spec.operator == 6 ==> (passed <==> 0 != spec.valueNum))
  {
    var row := PolicyOfCheck(crypto, boxes, worlds, events, i, t, record, ipfsHash, fields, a, result, k);
    var verdict := VerdictOfCheck(crypto.sha, worlds[i].chain, t, record.actionId, ipfsHash, a, result, k, MirroredRule(row));
    JudgeMeans(crypto.sha, worlds[i].chain, t, MirroredRule(row), a.valuesNum[k], a.valuesStr[k], a.attested[k]);
  }

  /** Where the field of a public set policy is missing, no check is confirmed, or the two boxes returned collide. */
  lemma MissingTextRefuses(crypto: Crypto, boxes: iset<Box>, worlds: seq<World>, events: seq<Event>, i: nat, t: Tenant,
                           record: AuditRecord, ipfsHash: Digest, fields: Fields, a: CheckArgs,
                           result: PolicyCheckResult, k: nat)
    returns (listed: Box, read: Box)
    requires Audited(crypto, boxes, worlds, events, i, t, record, ipfsHash, fields, a, result)
    requires k < InStore(worlds[i].runs[t]) && k < |worlds[i].runs[t].specs|
    requires
      var spec := worlds[i].runs[t].specs[k];
      !spec.isPrivate && (spec.operator == 7 || spec.operator == 8) && spec.field !in fields
    ensures Collide(crypto.sha, Preimage(listed), Preimage(read))
  {
    var row := PolicyOfCheck(crypto, boxes, worlds, events, i, t, record, ipfsHash, fields, a, result, k);
    assert Tenant(t.org, t.agent) == t;
    listed, read := EmptyTextRefuses(crypto.sha, worlds[i].chain, t.org, t.agent, record.actionId, ipfsHash, a, k);
  }
}
