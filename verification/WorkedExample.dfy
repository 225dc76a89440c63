/**
 Two tenants: one with the policy "amount <= 100", for whom the assumptions of the end-to-end
 theorems are met by every amount; and one with two whitelists on one field, whose record is
 approved although a policy it declared does not hold.
 */
module WorkedExample {
  import opened Basics
  import opened Arc4
  import opened BoxKeys
  import opened PolicyContracts
  import opened TenantStores
  import opened ContractClient
  import opened Provisioning
  import opened BatchStores
  import opened Onboarding
  import opened OnboardingTheorems
  import opened OnboardingStability
  import opened OnboardingCompletes
  import opened OnboardingRuns
  import opened AuditorRecheck
  import opened PolicyVerdict
  import opened DeclaredPolicies
  import opened Pipeline
  import opened ApprovedRecords

  function Start(receipts: nat): World {
    World(Chain(map[], map[], map[], receipts), Tables(map[], map[], map[]), map[], {})
  }

  /** The execution ends with the tenant onboarded, with these policies. */
  ghost predicate Onboarded(crypto: Crypto, boxes: iset<Box>, worlds: seq<World>, events: seq<Event>, t: Tenant,
                            specs: seq<PolicySpec>, org: OrgRow, receipts: nat) {
    At(crypto, boxes, worlds, events, t, Run(specs, |specs|, Ready, Completed), org, receipts, map[])
  }

  /** Any encodable policies can be onboarded from the empty state on. */
  lemma OnboardFirst(crypto: Crypto, boxes: iset<Box>, t: Tenant, specs: seq<PolicySpec>, org: OrgRow, receipts: nat)
    returns (worlds: seq<World>, events: seq<Event>)
    requires CollisionFree(crypto, boxes) && Covers(boxes, t, specs) && Encodable(crypto, t, org.encKey, specs)
    ensures Onboarded(crypto, boxes, worlds, events, t, specs, org, receipts)
  {
    worlds, events := OnboardingCanComplete(crypto, boxes, [Start(receipts)], [], t, org, [], specs);
  }

  /** The stored rows of public policies are determined by them. */
  lemma PublicListing(crypto: Crypto, boxes: iset<Box>, worlds: seq<World>, events: seq<Event>, t: Tenant,
                      specs: seq<PolicySpec>, org: OrgRow, receipts: nat)
    requires Onboarded(crypto, boxes, worlds, events, t, specs, org, receipts) && CollisionFree(crypto, boxes)
    requires forall spec :: spec in specs ==> !spec.isPrivate
    ensures
      var rows := Listing(worlds[|events|].tables, t.org, t.agent);
      && IsListing(rows, worlds[|events|].tables, t.org, t.agent) && |rows| == |specs|
      && forall i :: 0 <= i < |specs| ==> rows[i].1 == PublicRow(specs[i].operator, specs[i].valueNum, specs[i].field)
    ensures Enforced(worlds[|events|].runs[t]) == specs
  {
    var w := worlds[|events|];
    var rows := Listing(w.tables, t.org, t.agent);
    InvReachable(crypto, boxes, worlds, events, |events|);
    assert TenantInv(crypto, boxes, w, t);
    ListingIsListing(w.tables, t.org, t.agent);
    ListingOfPrefix(rows, w.tables, t.org, t.agent, |specs|);
    forall i | 0 <= i < |specs|
      ensures rows[i].1 == PublicRow(specs[i].operator, specs[i].valueNum, specs[i].field)
    {
      assert MirrorAgrees(crypto, w.chain, w.tables, t, i, specs[i]) && specs[i] in specs;
    }
    CompletedEnforcesAll(w.runs[t]);
  }

  // ----- An amount up to a limit -----

  const AMOUNT: Text := [0x61]

  const LIMIT := PolicySpec(AMOUNT, OP_LE, 100, [], false)

  function Payment(amount: uint64): Fields {
    map[AMOUNT := FieldValue([], Some(amount))]
  }

  function PaymentArgs(amount: uint64): CheckArgs {
    CheckArgs([amount], [[]], [false], [AMOUNT])
  }

  /** The tenant is onboarded, and the record of a payment is approved exactly when the amount is at most 100. */
  lemma ApprovedUpToTheLimit(crypto: Crypto, boxes: iset<Box>, t: Tenant, org: OrgRow, receipts: nat,
                             record: AuditRecord, txId: Text, ipfsHash: Digest, amount: uint64)
    returns (worlds: seq<World>, events: seq<Event>, result: PolicyCheckResult)
    requires Covers(boxes, t, [LIMIT]) && CollisionFree(crypto, boxes) && Authentic(crypto)
    requires receipts > 0 && Fits16(|record.actionId|)
    ensures Onboarded(crypto, boxes, worlds, events, t, [LIMIT], org, receipts)
    ensures CheckedIn(crypto, boxes, worlds, events, |events|, t, record, ipfsHash, Payment(amount), PaymentArgs(amount), result)
    ensures WithVerdict(record, result, txId).approved <==> amount <= 100
  {
    worlds, events := OnboardFirst(crypto, boxes, t, [LIMIT], org, receipts);
    result := PaymentChecked(crypto, boxes, worlds, events, t, org, receipts, record, ipfsHash, amount);
    PaymentDecided(crypto, boxes, worlds, events, t, record, txId, ipfsHash, amount, result);
  }

  lemma PaymentDecided(crypto: Crypto, boxes: iset<Box>, worlds: seq<World>, events: seq<Event>, t: Tenant,
                       record: AuditRecord, txId: Text, ipfsHash: Digest, amount: uint64, result: PolicyCheckResult)
    requires CheckedIn(crypto, boxes, worlds, events, |events|, t, record, ipfsHash, Payment(amount), PaymentArgs(amount), result)
    requires worlds[|events|].runs[t].status.Completed? && worlds[|events|].runs[t].specs == [LIMIT]
    ensures WithVerdict(record, result, txId).approved <==> amount <= 100
  {
    LimitAlone(amount);
    ApprovedAsWritten(crypto, boxes, worlds, events, |events|, t, record, txId, ipfsHash, Payment(amount),
                      PaymentArgs(amount), result);
  }

  lemma LimitAlone(amount: uint64)
    ensures AllAnswered([LIMIT], Payment(amount)) && OneSetPerField([LIMIT])
    ensures AllHoldAlone([LIMIT], Payment(amount)) <==> amount <= 100
  {
    assert [LIMIT][0] == LIMIT;
    assert HoldsAlone(LIMIT, Payment(amount)) <==> amount <= 100;
  }

  lemma PaymentChecked(crypto: Crypto, boxes: iset<Box>, worlds: seq<World>, events: seq<Event>, t: Tenant, org: OrgRow,
                       receipts: nat, record: AuditRecord, ipfsHash: Digest, amount: uint64)
    returns (result: PolicyCheckResult)
    requires Onboarded(crypto, boxes, worlds, events, t, [LIMIT], org, receipts)
    requires CollisionFree(crypto, boxes) && Authentic(crypto) && receipts > 0 && Fits16(|record.actionId|)
    ensures CheckedIn(crypto, boxes, worlds, events, |events|, t, record, ipfsHash, Payment(amount), PaymentArgs(amount), result)
  {
    var a := PaymentArgs(amount);
    PublicListing(crypto, boxes, worlds, events, t, [LIMIT], org, receipts);
    assert [LIMIT][0] == LIMIT && a.valuesStr[..0] == [] && NonEmpty(a.valuesStr) == 0;
    RunIsSound(crypto, boxes, worlds, events, t);
    result := CheckIsAnswered(crypto, boxes, worlds, events, |events|, t, record, ipfsHash, Payment(amount), a);
  }

  lemma RunIsSound(crypto: Crypto, boxes: iset<Box>, worlds: seq<World>, events: seq<Event>, t: Tenant)
    requires IsExecution(crypto, boxes, worlds, events) && CollisionFree(crypto, boxes) && t in worlds[|events|].runs
    ensures RunProgress(worlds[|events|].runs[t])
  {
    InvReachable(crypto, boxes, worlds, events, |events|);
    assert TenantInv(crypto, boxes, worlds[|events|], t);
  }

  // ----- Two whitelists on one field -----

  const VENDOR: Text := [0x76]
  const ACME: Text := [0x41]
  const BOLT: Text := [0x42]

  const WHITELISTS := [PolicySpec(VENDOR, OP_IN, 0, [ACME], false), PolicySpec(VENDOR, OP_IN, 0, [BOLT], false)]

  const ORDER: Fields := map[VENDOR := FieldValue(ACME, None)]

  const ORDER_ARGS := CheckArgs([0, 0], [ACME, ACME], [false, false], [VENDOR, VENDOR])

  lemma OrderBorrows()
    ensures AllAnswered(WHITELISTS, ORDER) && !HoldsAlone(WHITELISTS[1], ORDER)
    ensures AllHold(WHITELISTS, ORDER)
  {
    assert ACME[0] != BOLT[0];
    assert WHITELISTS[0].field == VENDOR && ACME in SeedValues(WHITELISTS[0]);
    assert Declared(WHITELISTS, 2, VENDOR, ACME);
  }

  /**
   The tenant is onboarded, its order is checked by the contract, and the record is approved, although
   the second whitelist refuses it.
   */
  lemma ApprovedAgainstAWhitelist(crypto: Crypto, boxes: iset<Box>, t: Tenant, org: OrgRow, receipts: nat,
                                  record: AuditRecord, txId: Text, ipfsHash: Digest)
    returns (worlds: seq<World>, events: seq<Event>, result: PolicyCheckResult)
    requires Covers(boxes, t, WHITELISTS) && CollisionFree(crypto, boxes) && Authentic(crypto)
    requires receipts > 0 && Fits16(|record.actionId|)
    ensures Onboarded(crypto, boxes, worlds, events, t, WHITELISTS, org, receipts)
    ensures CheckedIn(crypto, boxes, worlds, events, |events|, t, record, ipfsHash, ORDER, ORDER_ARGS, result)
    ensures WithVerdict(record, result, txId).approved && Answers(ORDER, WHITELISTS[1]) && !HoldsAlone(WHITELISTS[1], ORDER)
  {
    worlds, events := OnboardFirst(crypto, boxes, t, WHITELISTS, org, receipts);
    PublicListing(crypto, boxes, worlds, events, t, WHITELISTS, org, receipts);
    OrderBorrows();
    OrderInputs(crypto, boxes, worlds, events, t, org, receipts, record, ipfsHash);
    result := CheckIsAnswered(crypto, boxes, worlds, events, |events|, t, record, ipfsHash, ORDER, ORDER_ARGS);
    ApprovedIffPoliciesHold(crypto, boxes, worlds, events, |events|, t, record, txId, ipfsHash, ORDER, ORDER_ARGS, result);
  }

  lemma OrderInputs(crypto: Crypto, boxes: iset<Box>, worlds: seq<World>, events: seq<Event>, t: Tenant,
                    org: OrgRow, receipts: nat, record: AuditRecord, ipfsHash: Digest)
    requires Onboarded(crypto, boxes, worlds, events, t, WHITELISTS, org, receipts) && Covers(boxes, t, WHITELISTS)
    requires CollisionFree(crypto, boxes) && Fits16(|record.actionId|)
    ensures CheckInputs(crypto, boxes, worlds[|events|], t, record.actionId, ipfsHash, ORDER,
                        Listing(worlds[|events|].tables, t.org, t.agent), ORDER_ARGS)
  {
    PublicListing(crypto, boxes, worlds, events, t, WHITELISTS, org, receipts);
    RunIsSound(crypto, boxes, worlds, events, t);
    OrderBorrows();
    var field: ArcString, value: ArcString := VENDOR, ACME;
    assert Declared(WHITELISTS, |WHITELISTS|, field, value) by {
      assert WHITELISTS[0].field == VENDOR && ACME in SeedValues(WHITELISTS[0]);
    }
    assert SetBox(t, field, value) in boxes;
    OrderSendable(t, record.actionId, ipfsHash);
  }

  lemma OrderSendable(t: Tenant, actionId: ArcString, ipfsHash: Digest)
    ensures Sendable(t.org, t.agent, actionId, ipfsHash, ORDER_ARGS)
    ensures 1 + |ORDER_ARGS.valuesNum| + NonEmpty(ORDER_ARGS.valuesStr) <= MAX_BOXES
  {
    var strs := ORDER_ARGS.valuesStr;
    assert Offset(strs, 0) == 4 && TailSize(strs, 1) == 3 && Offset(strs, 1) == 7;
    assert |strs| == 2 && strs[..2 - 1] == [ACME] && [ACME][..0] == [] && ACME != [];
    assert NonEmpty([ACME]) == 1;
    assert NonEmpty(strs) == NonEmpty(strs[..|strs| - 1]) + 1;
  }

  // ----- A rule added after an audit that makes the auditor's recheck raise -----

  /** A private whitelist of vendors and, on the same field, a private limit that only numbers can be compared with. */
  const PRIVATE := [PolicySpec(VENDOR, OP_IN, 0, [ACME], true), PolicySpec(VENDOR, OP_LE, 100, [], true)]

  const FIRST_ARGS := CheckArgs([0], [[]], [true], [VENDOR])

  /**
   After the first rule was stored, an order can be audited and rechecked; once the second one is
   stored as well, the recheck of that order raises, and the auditor gets no report on either rule.
   */
  lemma LaterRuleStopsTheAuditor(crypto: Crypto, boxes: iset<Box>, t: Tenant, org: OrgRow, receipts: nat)
    returns (worlds: seq<World>, events: seq<Event>, i: nat)
    requires Covers(boxes, t, PRIVATE) && CollisionFree(crypto, boxes) && Authentic(crypto)
    ensures IsExecution(crypto, boxes, worlds, events) && i <= |events|
    ensures
      var first, later := Listing(worlds[i].tables, t.org, t.agent), Listing(worlds[|events|].tables, t.org, t.agent);
      && AuditedBefore(crypto, boxes, worlds, events, t, i, |events|, ORDER, first, FIRST_ARGS, later)
      && Reports(crypto, org.encKey, first, ORDER, |first|).Success?
      && Reports(crypto, org.encKey, later, ORDER, |later|) == Failure(BadValue)
  {
    var begin := Begin(t, org, [], PRIVATE);
    var w := Next(crypto, Start(receipts), begin);
    StepExtends(crypto, boxes, [Start(receipts)], [], begin, w);
    var front, before := RegisterRest(crypto, boxes, [Start(receipts)] + [w], [] + [begin], t, PRIVATE, 0, 1, org, receipts, map[]);
    i := |before|;
    worlds, events := RegisterRest(crypto, boxes, front, before, t, PRIVATE, 1, 2, org, receipts, map[]);
    assert worlds[i] == front[i];
    FirstIsAudited(crypto, boxes, front, before, t, org, receipts);
    SecondRaises(crypto, boxes, worlds, events, t, org, receipts);
  }

  /** The row of a private policy is its commitment and its envelope. */
  lemma PrivateListing(crypto: Crypto, boxes: iset<Box>, worlds: seq<World>, events: seq<Event>, t: Tenant, n: nat,
                       org: OrgRow, receipts: nat, k: nat) returns (nonce: Bytes)
    requires At(crypto, boxes, worlds, events, t, Run(PRIVATE, n, Ready, InFlight), org, receipts, map[])
    requires CollisionFree(crypto, boxes) && k < n <= 2
    ensures
      var rows := Listing(worlds[|events|].tables, t.org, t.agent);
      && IsListing(rows, worlds[|events|].tables, t.org, t.agent) && |rows| == n
      && rows[k] == (k, PrivateRow(crypto, org.encKey, nonce, DocOf(PRIVATE[k])))
  {
    var w := worlds[|events|];
    ListingIsListing(w.tables, t.org, t.agent);
    ListingOfLive(crypto, boxes, worlds, events, t, |events|, Listing(w.tables, t.org, t.agent));
    nonce := RowOfLive(crypto, boxes, worlds, events, t, |events|, k);
  }

  lemma FirstIsAudited(crypto: Crypto, boxes: iset<Box>, worlds: seq<World>, events: seq<Event>, t: Tenant,
                       org: OrgRow, receipts: nat)
    requires At(crypto, boxes, worlds, events, t, Run(PRIVATE, 1, Ready, InFlight), org, receipts, map[])
    requires CollisionFree(crypto, boxes) && Authentic(crypto)
    ensures
      var rows := Listing(worlds[|events|].tables, t.org, t.agent);
      && IsListing(rows, worlds[|events|].tables, t.org, t.agent)
      && ArgsFor(crypto, org.encKey, rows, ORDER, FIRST_ARGS)
      && Reports(crypto, org.encKey, rows, ORDER, |rows|).Success?
  {
    var rows := Listing(worlds[|events|].tables, t.org, t.agent);
    var nonce := PrivateListing(crypto, boxes, worlds, events, t, 1, org, receipts, 0);
    var doc := DocOf(PRIVATE[0]);
    assert crypto.decrypt(org.encKey, crypto.encrypt(org.encKey, nonce, doc)) == Some(doc);
    assert ACME in multiset([ACME]);
    assert SlotFor(crypto, org.encKey, rows[0].1, ORDER) == Success(Slot(0, [], true));
    AuditedIsDecidable(crypto, org.encKey, rows, ORDER, FIRST_ARGS, 0);
    ReportsSucceed(crypto, org.encKey, rows, ORDER, 1);
  }

  lemma SecondRaises(crypto: Crypto, boxes: iset<Box>, worlds: seq<World>, events: seq<Event>, t: Tenant,
                     org: OrgRow, receipts: nat)
    requires At(crypto, boxes, worlds, events, t, Run(PRIVATE, 2, Ready, InFlight), org, receipts, map[])
    requires CollisionFree(crypto, boxes) && Authentic(crypto)
    ensures
      var rows := Listing(worlds[|events|].tables, t.org, t.agent);
      && IsListing(rows, worlds[|events|].tables, t.org, t.agent)
      && Reports(crypto, org.encKey, rows, ORDER, |rows|) == Failure(BadValue)
  {
    var rows := Listing(worlds[|events|].tables, t.org, t.agent);
    var first := PrivateListing(crypto, boxes, worlds, events, t, 2, org, receipts, 0);
    var second := PrivateListing(crypto, boxes, worlds, events, t, 2, org, receipts, 1);
    var doc, limit := DocOf(PRIVATE[0]), DocOf(PRIVATE[1]);
    assert crypto.decrypt(org.encKey, crypto.encrypt(org.encKey, first, doc)) == Some(doc);
    assert crypto.decrypt(org.encKey, crypto.encrypt(org.encKey, second, limit)) == Some(limit);
    assert RecheckRow(crypto, org.encKey, 0, rows[0].1, ORDER).Success?;
    assert RecheckRow(crypto, org.encKey, 1, rows[1].1, ORDER) == Failure(BadValue);
    assert Reports(crypto, org.encKey, rows, ORDER, 0) == Success([]);
    assert Reports(crypto, org.encKey, rows, ORDER, 1).Success?;
  }
}
