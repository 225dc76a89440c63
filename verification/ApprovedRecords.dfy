/**
 What an approved record means: from the declared policies through registration, evaluation,
 receipt and result string to the record that enters the batch.
 */
module ApprovedRecords {
  import opened Basics
  import opened BoxKeys
  import opened ResultString
  import opened PolicyContracts
  import opened TenantStores
  import opened ContractClient
  import opened Provisioning
  import opened BatchStores
  import opened Receipts
  import opened Onboarding
  import opened OnboardingTheorems
  import opened OnboardingStability
  import opened PolicyVerdict
  import opened DeclaredPolicies
  import opened Pipeline

  /** The record is approved and minted exactly when all policies hold, and tells of each whether it holds and in which layer. */
  predicate TellsVerdict(final: AuditRecord, specs: seq<PolicySpec>, fields: Fields)
    requires forall k :: 0 <= k < |specs| ==> Answers(fields, specs[k])
  {
    && (final.approved <==> AllHold(specs, fields))
    && final.asaMinted == final.approved
    && |Split(final.policyResult)| == |specs|
    && forall k :: 0 <= k < |specs| ==>
         Breakdown(Split(final.policyResult)[k])
         == (Holds(specs, specs[k], fields), LayerName(if specs[k].isPrivate then Attested else Onchain))
  }

  /** A record that was checked in state `i` of an execution, with arrays built from the store. */
  ghost predicate CheckedIn(crypto: Crypto, boxes: iset<Box>, worlds: seq<World>, events: seq<Event>, i: nat, t: Tenant,
                            record: AuditRecord, ipfsHash: Digest, fields: Fields, a: CheckArgs, result: PolicyCheckResult) {
    && IsExecution(crypto, boxes, worlds, events) && CollisionFree(crypto, boxes) && Authentic(crypto)
    && i < |worlds|
    && CheckInputs(crypto, boxes, worlds[i], t, record.actionId, ipfsHash, fields,
                   Listing(worlds[i].tables, t.org, t.agent), a)
    && Checked(crypto, worlds[i].tables, crypto.sha, worlds[i].chain, t.org, t.agent, record.actionId, ipfsHash,
               fields, a, result)
  }

  /**
   In every reachable state of the onboarding machine, a checked record of a live tenant is
   approved, and its receipt minted, exactly when every policy in force holds of the decision, and
   its result string tells for each policy whether it holds and in which layer.
   */
  lemma ApprovedIffPoliciesHold(crypto: Crypto, boxes: iset<Box>, worlds: seq<World>, events: seq<Event>, i: nat,
                                t: Tenant, record: AuditRecord, txId: Text, ipfsHash: Digest, fields: Fields,
                                a: CheckArgs, result: PolicyCheckResult)
    requires CheckedIn(crypto, boxes, worlds, events, i, t, record, ipfsHash, fields, a, result)
    ensures AllAnswered(Enforced(worlds[i].runs[t]), fields)
    ensures TellsVerdict(WithVerdict(record, result, txId), Enforced(worlds[i].runs[t]), fields)
    ensures worlds[i].runs[t].status.Completed? ==> Enforced(worlds[i].runs[t]) == worlds[i].runs[t].specs
  {
    var w, rows := worlds[i], Listing(worlds[i].tables, t.org, t.agent);
    InvReachable(crypto, boxes, worlds, events, i);
    assert TenantInv(crypto, boxes, w, t);
    ListingIsListing(w.tables, t.org, t.agent);
    CheckedIsReady(crypto, boxes, w, t, record, ipfsHash, fields, a, result);
    CheckedTells(crypto, boxes, w, t, record, txId, ipfsHash, fields, rows, a, result);
    CompletedEnforcesAll(w.runs[t]);
  }

  /** A check was confirmed, so no rule of the tenant waits to be stored. */
  lemma CheckedIsReady(crypto: Crypto, boxes: iset<Box>, w: World, t: Tenant, record: AuditRecord, ipfsHash: Digest,
                       fields: Fields, a: CheckArgs, result: PolicyCheckResult)
    requires TenantInv(crypto, boxes, w, t)
    requires Checked(crypto, w.tables, crypto.sha, w.chain, t.org, t.agent, record.actionId, ipfsHash, fields, a, result)
    ensures !w.runs[t].phase.Registered?
  {
    assert Tenant(t.org, t.agent) == t;
    if w.runs[t].phase.Registered? {
      ListingIsListing(w.tables, t.org, t.agent);
      UnstoredRuleRefuses(crypto, boxes, w, t, CallFor(crypto.sha, t.org, t.agent, record.actionId, ipfsHash, a),
                          w.tables.orgs[t.org].encKey, fields, Listing(w.tables, t.org, t.agent), a);
    }
  }

  /**
   The same against the policies as the organisation wrote them, for a tenant whose onboarding
   completed: a record is approved exactly when all of them hold, if no two public set policies are
   on one field; and in general except exactly when the policies that do not borrow a value hold and
   only whitelists or only blacklists borrow one.
   */
  lemma ApprovedAsWritten(crypto: Crypto, boxes: iset<Box>, worlds: seq<World>, events: seq<Event>, i: nat,
                          t: Tenant, record: AuditRecord, txId: Text, ipfsHash: Digest, fields: Fields,
                          a: CheckArgs, result: PolicyCheckResult)
    requires CheckedIn(crypto, boxes, worlds, events, i, t, record, ipfsHash, fields, a, result)
    requires worlds[i].runs[t].status.Completed?
    ensures AllAnswered(worlds[i].runs[t].specs, fields)
    ensures
      var specs, approved := worlds[i].runs[t].specs, WithVerdict(record, result, txId).approved;
      && (OneSetPerField(specs) ==> (approved <==> AllHoldAlone(specs, fields)))
      && ((approved <==> AllHoldAlone(specs, fields)) <==>
            !(OthersHold(specs, fields) && SomeBorrow(specs, fields, OP_IN) != SomeBorrow(specs, fields, OP_NOT_IN)))
  {
    ApprovedIffPoliciesHold(crypto, boxes, worlds, events, i, t, record, txId, ipfsHash, fields, a, result);
    var specs := worlds[i].runs[t].specs;
    DecisionDiffers(specs, fields);
    if OneSetPerField(specs) {
      EnforcedAsWritten(specs, fields);
    }
  }

  /** With a single policy, public or private, the record is approved exactly as its operator code says. */
  lemma SinglePolicy(crypto: Crypto, boxes: iset<Box>, worlds: seq<World>, events: seq<Event>, i: nat, t: Tenant,
                     record: AuditRecord, txId: Text, ipfsHash: Digest, fields: Fields, a: CheckArgs,
                     result: PolicyCheckResult, spec: PolicySpec)
    requires CheckedIn(crypto, boxes, worlds, events, i, t, record, ipfsHash, fields, a, result)
    requires worlds[i].runs[t].status.Completed? && worlds[i].runs[t].specs == [spec] && 1 <= spec.operator <= 8
    ensures spec.field in fields && (spec.operator <= 6 ==> fields[spec.field].asInt.Some?)
    ensures
      var approved, given := WithVerdict(record, result, txId).approved, fields[spec.field];
      && (spec.operator == 1 ==> (approved <==> given.asInt.value < spec.valueNum))
      && (spec.operator == 2 ==> (approved <==> given.asInt.value <= spec.valueNum))
      && (spec.operator == 3 ==> (approved <==> given.asInt.value > spec.valueNum))
      && (spec.operator == 4 ==> (approved <==> given.asInt.value >= spec.valueNum))
      && (spec.operator == 5 ==> (approved <==> given.asInt.value == spec.valueNum))
      && (spec.operator == 6 ==> (approved <==> given.asInt.value != spec.valueNum))
      && (spec.operator == 7 ==> (approved <==> given.asText in spec.setValues))
      && (spec.operator == 8 ==> (approved <==> given.asText !in spec.setValues))
  {
    ApprovedAsWritten(crypto, boxes, worlds, events, i, t, record, txId, ipfsHash, fields, a, result);
    SingleDecision(spec, fields);
    HoldsAloneMeans(spec, fields);
  }

  lemma SingleDecision(spec: PolicySpec, fields: Fields)
    requires AllAnswered([spec], fields)
    ensures OneSetPerField([spec]) && Answers(fields, spec)
    ensures AllHoldAlone([spec], fields) <==> HoldsAlone(spec, fields)
  {
    assert [spec][0] == spec;
  }

  /** What is gathered for a check in state `i`, to be confirmed. */
  ghost predicate GatheredIn(crypto: Crypto, boxes: iset<Box>, worlds: seq<World>, events: seq<Event>, i: nat, t: Tenant,
                             actionId: Text, ipfsHash: Digest, fields: Fields, a: CheckArgs) {
    && IsExecution(crypto, boxes, worlds, events) && CollisionFree(crypto, boxes) && Authentic(crypto)
    && i < |worlds|
    && CheckInputs(crypto, boxes, worlds[i], t, actionId, ipfsHash, fields, Listing(worlds[i].tables, t.org, t.agent), a)
  }

  lemma GatheredAnswers(crypto: Crypto, boxes: iset<Box>, worlds: seq<World>, events: seq<Event>, i: nat, t: Tenant,
                        actionId: Text, ipfsHash: Digest, fields: Fields, a: CheckArgs)
    requires GatheredIn(crypto, boxes, worlds, events, i, t, actionId, ipfsHash, fields, a)
    ensures AllAnswered(Enforced(worlds[i].runs[t]), fields)
  {
  }

  /**
   When a check is answered: exactly if no rule of the tenant waits to be stored and, should all
   policies in force hold, a receipt is left.
   */
  lemma AnsweredExactly(crypto: Crypto, boxes: iset<Box>, worlds: seq<World>, events: seq<Event>, i: nat, t: Tenant,
                        actionId: Text, ipfsHash: Digest, fields: Fields, a: CheckArgs)
    requires GatheredIn(crypto, boxes, worlds, events, i, t, actionId, ipfsHash, fields, a)
    ensures AllAnswered(Enforced(worlds[i].runs[t]), fields)
    ensures Answerable(crypto, worlds[i].tables, crypto.sha, worlds[i].chain, t.org, t.agent, actionId, ipfsHash, fields) <==>
      && !worlds[i].runs[t].phase.Registered?
      && (AllHold(Enforced(worlds[i].runs[t]), fields) ==> worlds[i].chain.receipts > 0)
  {
    InvReachable(crypto, boxes, worlds, events, i);
    assert TenantInv(crypto, boxes, worlds[i], t);
    GatheredAnswers(crypto, boxes, worlds, events, i, t, actionId, ipfsHash, fields, a);
    ListingIsListing(worlds[i].tables, t.org, t.agent);
    ConfirmedExactly(crypto, boxes, worlds[i], t, actionId, ipfsHash, fields, Listing(worlds[i].tables, t.org, t.agent), a);
    AnswerableWith(crypto, worlds[i].tables, crypto.sha, worlds[i].chain, t.org, t.agent, actionId, ipfsHash, fields, a);
  }

  /** While receipts are left, a check with such inputs is answered, so there is a record to speak of. */
  lemma CheckIsAnswered(crypto: Crypto, boxes: iset<Box>, worlds: seq<World>, events: seq<Event>, i: nat, t: Tenant,
                        record: AuditRecord, ipfsHash: Digest, fields: Fields, a: CheckArgs)
    returns (result: PolicyCheckResult)
    requires GatheredIn(crypto, boxes, worlds, events, i, t, record.actionId, ipfsHash, fields, a)
    requires !worlds[i].runs[t].phase.Registered? && worlds[i].chain.receipts > 0
    ensures CheckedIn(crypto, boxes, worlds, events, i, t, record, ipfsHash, fields, a, result)
  {
    var w := worlds[i];
    ReachableVerdict(crypto, boxes, worlds, events, i, t, record.actionId, ipfsHash, fields,
                     Listing(w.tables, t.org, t.agent), a);
    assert Tenant(t.org, t.agent) == t;
    var verdicts := Outcome(crypto.sha, w.chain, CallFor(crypto.sha, t.org, t.agent, record.actionId, ipfsHash, a), t, Arrays(a)).value;
    result := PolicyCheckResult(Render(verdicts), AllPassed(verdicts));
  }

  /**
   The pipeline in a reachable state: a delivered call succeeds exactly if no rule waits to be stored
   and, should all policies in force hold, a receipt is left; and then the row it adds is approved
   exactly if they hold, and tells of each whether it does.
   */
  method AuditReachable(crypto: Crypto, tenants: TenantStore, batch: BatchStore, contract: PolicyContract,
                        record: AuditRecord, fields: Fields, t: Tenant, ipfsHash: Digest, net: Network, txId: Text, now: int,
                        ghost s: Audit, ghost boxes: iset<Box>, ghost worlds: seq<World>, ghost events: seq<Event>,
                        ghost i: nat, ghost a: CheckArgs)
    returns (r: Result<AuditRecord, PipelineError>)
    requires GatheredIn(crypto, boxes, worlds, events, i, t, record.actionId, ipfsHash, fields, a)
    requires crypto.sha == contract.sha && contract.State() == worlds[i].chain && tenants.State() == worlds[i].tables
    modifies batch, contract
    ensures AllAnswered(Enforced(worlds[i].runs[t]), fields)
    ensures r.Success? <==>
      && net.Delivered? && record.actionId != [] && !worlds[i].runs[t].phase.Registered?
      && (AllHold(Enforced(worlds[i].runs[t]), fields) ==> worlds[i].chain.receipts > 0)
    ensures r.Success? ==>
      && batch.leaves == old(batch.leaves)[record.actionId := PendingRow(batch.leafHash, r.value, now)]
      && TellsVerdict(r.value, Enforced(worlds[i].runs[t]), fields)
    ensures r.Failure? ==> batch.leaves == old(batch.leaves)
  {
    AnsweredExactly(crypto, boxes, worlds, events, i, t, record.actionId, ipfsHash, fields, a);
    ghost var b, result, run;
    r, b, result, run := ExecutePipeline(crypto, tenants, batch, contract, record, fields, t.org, t.agent, Some(ipfsHash),
                                         net, txId, now, s);
    if r.Success? {
      ArgsUnique(crypto, worlds[i].tables.orgs[t.org].encKey, Listing(worlds[i].tables, t.org, t.agent), fields, a, b);
      ApprovedIffPoliciesHold(crypto, boxes, worlds, events, i, t, record, txId, ipfsHash, fields, a, result);
    }
  }

  /**
   A check of a completed tenant whose arrays were built in state `i` and which is confirmed in any
   later state `j`, whatever happened in between: it is answered exactly as above, and its record is
   approved exactly if the policies hold.
   */
  lemma ApprovedLater(crypto: Crypto, boxes: iset<Box>, worlds: seq<World>, events: seq<Event>, i: nat, j: nat, t: Tenant,
                      record: AuditRecord, txId: Text, ipfsHash: Digest, fields: Fields, a: CheckArgs, result: PolicyCheckResult)
    requires GatheredIn(crypto, boxes, worlds, events, i, t, record.actionId, ipfsHash, fields, a) && i <= j < |worlds|
    requires worlds[i].runs[t].status.Completed?
    ensures AllAnswered(worlds[i].runs[t].specs, fields)
    ensures Confirmable(crypto.sha, worlds[j].chain, t.org, t.agent, record.actionId, ipfsHash, a) <==>
      (AllHold(worlds[i].runs[t].specs, fields) ==> worlds[j].chain.receipts > 0)
    ensures Confirms(crypto.sha, worlds[j].chain, t.org, t.agent, record.actionId, ipfsHash, a, result) ==>
      TellsVerdict(WithVerdict(record, result, txId), worlds[i].runs[t].specs, fields)
  {
    var w, rows := worlds[j], Listing(worlds[j].tables, t.org, t.agent);
    InputsStay(crypto, boxes, worlds, events, i, j, t, record.actionId, ipfsHash, fields, a);
    InvReachable(crypto, boxes, worlds, events, j);
    assert TenantInv(crypto, boxes, w, t);
    CompletedEnforcesAll(w.runs[t]);
    ConfirmedExactly(crypto, boxes, w, t, record.actionId, ipfsHash, fields, rows, a);
    if Confirms(crypto.sha, w.chain, t.org, t.agent, record.actionId, ipfsHash, a, result) {
      CheckedTells(crypto, boxes, w, t, record, txId, ipfsHash, fields, rows, a, result);
    }
  }

  lemma CheckedTells(crypto: Crypto, boxes: iset<Box>, w: World, t: Tenant, record: AuditRecord, txId: Text,
                     ipfsHash: Digest, fields: Fields, rows: seq<(nat, RuleRow)>, a: CheckArgs, result: PolicyCheckResult)
    requires ReadyToCheck(crypto, boxes, w, t, record.actionId, ipfsHash, fields, rows, a)
    requires Confirms(crypto.sha, w.chain, t.org, t.agent, record.actionId, ipfsHash, a, result)
    ensures AllAnswered(Enforced(w.runs[t]), fields)
    ensures TellsVerdict(WithVerdict(record, result, txId), Enforced(w.runs[t]), fields)
  {
    EndToEndVerdict(crypto, boxes, w, t, record.actionId, ipfsHash, fields, rows, a);
    var call := CallFor(crypto.sha, t.org, t.agent, record.actionId, ipfsHash, a);
    assert Tenant(t.org, t.agent) == t;
    VerdictsTell(Enforced(w.runs[t]), fields, Outcome(crypto.sha, w.chain, call, t, Arrays(a)).value, record, txId, result);
  }

  lemma VerdictsTell(specs: seq<PolicySpec>, fields: Fields, verdicts: seq<Verdict>, record: AuditRecord, txId: Text,
                     result: PolicyCheckResult)
    requires specs != [] && (forall k :: 0 <= k < |specs| ==> Answers(fields, specs[k]))
    requires AsDeclared(specs, fields, verdicts) && result == PolicyCheckResult(Render(verdicts), AllPassed(verdicts))
    ensures TellsVerdict(WithVerdict(record, result, txId), specs, fields)
  {
    VerdictsDecide(specs, fields, verdicts);
    SplitRender(verdicts);
    forall k | 0 <= k < |specs|
      ensures Breakdown(Token(verdicts[k])) == (verdicts[k].passed, LayerName(verdicts[k].layer))
    {
      TokenShape(verdicts[k]);
    }
  }
}
