/**
 The verdict of a check, end to end: arguments built from the tenant store, encoded, evaluated
 against the contract's boxes, and the receipt, compared with the policies that were declared.
 */
module PolicyVerdict {
  import opened Basics
  import opened Arc4
  import opened BoxKeys
  import opened ResultString
  import opened PolicyContracts
  import opened TenantStores
  import opened ContractClient
  import opened Provisioning
  import opened Onboarding

  // ----- The policies in force -----

  function SoFar(spec: PolicySpec, seeded: nat): PolicySpec
    requires seeded <= |SeedValues(spec)|
  {
    if SeedsSet(spec) then spec.(setValues := spec.setValues[..seeded]) else spec
  }

  /** The policies whose rules are on-chain and stored; the last one with the values that were seeded so far. */
  function Enforced(run: Run): seq<PolicySpec>
    requires RunProgress(run)
  {
    run.specs[..run.done] + if run.phase.Seeding? then [SoFar(run.specs[run.done], run.phase.seeded)] else []
  }

  lemma CompletedEnforcesAll(run: Run)
    requires RunProgress(run)
    ensures run.status.Completed? ==> Enforced(run) == run.specs
  {
  }

  /** The on-chain sets hold the values of the policies in force. */
  lemma EnforcedSets(run: Run, field: Text, value: Text)
    requires RunProgress(run)
    ensures Declared(Enforced(run), |Enforced(run)|, field, value) <==> SeededSoFar(run, field, value)
  {
    var specs := Enforced(run);
    assert forall i :: 0 <= i < run.done ==> specs[i] == run.specs[i];
    if run.phase.Seeding? {
      var last := specs[run.done];
      assert SeedValues(last) == SeedValues(run.specs[run.done])[..run.phase.seeded];
    }
  }

  lemma EnforcedRow(crypto: Crypto, key: Bytes, row: RuleRow, run: Run, i: nat)
    requires RunProgress(run) && i < |Enforced(run)| && IsRowOf(crypto, key, row, run.specs[i])
    ensures IsRowOf(crypto, key, row, Enforced(run)[i])
  {
    var nonce :| row == RowOf(crypto, key, nonce, run.specs[i]);
    assert row == RowOf(crypto, key, nonce, Enforced(run)[i]);
  }

  // ----- What a policy says -----

  predicate ValidSpec(spec: PolicySpec) {
    OP_LT <= spec.operator <= OP_NOT_IN
  }

  /** The decision gives the field a value of the kind that the policy compares. */
  predicate Answers(fields: Fields, spec: PolicySpec) {
    && spec.field in fields
    && var value := fields[spec.field];
       if IsSetOperator(spec.operator) then !spec.isPrivate ==> value.asText != []
       else value.asInt.Some?
  }

  /** The set that a policy tests membership in: its own list, or the set shared by public rules on one field. */
  predicate Listed(specs: seq<PolicySpec>, spec: PolicySpec, text: Text) {
    if spec.isPrivate then text in spec.setValues else Declared(specs, |specs|, spec.field, text)
  }

  /** The policy holds of the decision. */
  predicate Holds(specs: seq<PolicySpec>, spec: PolicySpec, fields: Fields)
    requires Answers(fields, spec)
  {
    var value := fields[spec.field];
    if IsSetOperator(spec.operator) then Listed(specs, spec, value.asText) == (spec.operator == OP_IN)
    else Compare(spec.operator, value.asInt.value, spec.valueNum)
  }

  // ----- One rule -----

  /** The off-chain evaluation of a private policy is the policy. */
  lemma PrivateSlot(crypto: Crypto, key: Bytes, row: RuleRow, specs: seq<PolicySpec>, spec: PolicySpec, fields: Fields)
    requires Authentic(crypto) && ValidSpec(spec) && Answers(fields, spec) && spec.isPrivate
    requires IsRowOf(crypto, key, row, spec)
    ensures SlotFor(crypto, key, row, fields) == Success(Slot(0, [], Holds(specs, spec, fields)))
  {
    var nonce :| row == RowOf(crypto, key, nonce, spec);
    var doc := DocOf(spec);
    assert crypto.decrypt(key, crypto.encrypt(key, nonce, doc)) == Some(doc);
    var text := fields[spec.field].asText;
    assert text in multiset(spec.setValues) <==> text in spec.setValues;
  }

  /** The on-chain sets of the tenant are those of `specs`, as far as their boxes are in `boxes`. */
  ghost predicate SetsAgree(crypto: Crypto, boxes: iset<Box>, c: Chain, t: Tenant, specs: seq<PolicySpec>) {
    forall field: ArcString, value: ArcString :: SetBox(t, field, value) in boxes ==>
      (InSet(crypto.sha, c, t, field, value) <==> Declared(specs, |specs|, field, value))
  }

  /** The contract's judgement of a rule, given the slot built from the store, is the policy. */
  lemma RuleVerdict(crypto: Crypto, boxes: iset<Box>, c: Chain, t: Tenant, specs: seq<PolicySpec>, key: Bytes,
                    row: RuleRow, spec: PolicySpec, fields: Fields, slot: Slot)
    requires Authentic(crypto) && ValidSpec(spec) && Answers(fields, spec) && SetsAgree(crypto, boxes, c, t, specs)
    requires IsRowOf(crypto, key, row, spec) && RowEncodable(t.org, t.agent, row)
    requires SlotFor(crypto, key, row, fields) == Success(slot) && Fits64(slot.num) && Fits16(|slot.str|)
    requires ReadsSet(MirroredRule(row)) ==> SetBox(t, row.field, slot.str) in boxes
    ensures Judge(crypto.sha, c, t, MirroredRule(row), slot.num, slot.str, slot.attested)
         == Verdict(Holds(specs, spec, fields), if spec.isPrivate then Attested else Onchain)
    ensures ReadsSet(MirroredRule(row)) ==> slot.str != []
  {
    if spec.isPrivate {
      PrivateSlot(crypto, key, row, specs, spec, fields);
    } else {
      assert row == PublicRow(spec.operator, spec.valueNum, spec.field);
      if ReadsSet(MirroredRule(row)) {
        var field: ArcString, value: ArcString := row.field, slot.str;
        assert InSet(crypto.sha, c, t, field, value) <==> Declared(specs, |specs|, field, value);
      }
    }
  }

  // ----- The whole check -----

  /** What is assumed of a check; every condition can be tested before the call. */
  ghost predicate CheckInputs(crypto: Crypto, boxes: iset<Box>, w: World, t: Tenant, actionId: Text, ipfsHash: Text,
                              fields: Fields, rows: seq<(nat, RuleRow)>, a: CheckArgs) {
    && t in w.runs && RunProgress(w.runs[t]) && Enforced(w.runs[t]) != []
    && (forall spec :: spec in Enforced(w.runs[t]) ==> ValidSpec(spec) && Answers(fields, spec))
    && t.org in w.tables.orgs && IsListing(rows, w.tables, t.org, t.agent)
    && ArgsFor(crypto, w.tables.orgs[t.org].encKey, rows, fields, a)
    && Sendable(t.org, t.agent, actionId, ipfsHash, a)
    && 1 + |a.valuesNum| + NonEmpty(a.valuesStr) <= MAX_BOXES
    && forall i :: 0 <= i < |a.valuesStr| && a.valuesStr[i] != [] ==> SetBox(t, a.fields[i], a.valuesStr[i]) in boxes
  }

  /** A check of a tenant all of whose on-chain rules are stored. */
  ghost predicate ReadyToCheck(crypto: Crypto, boxes: iset<Box>, w: World, t: Tenant, actionId: Text, ipfsHash: Text,
                               fields: Fields, rows: seq<(nat, RuleRow)>, a: CheckArgs) {
    && CheckInputs(crypto, boxes, w, t, actionId, ipfsHash, fields, rows, a)
    && Authentic(crypto) && TenantInv(crypto, boxes, w, t)
    && !w.runs[t].phase.Registered?
  }

  /** Every array has one entry for each policy in force. */
  lemma OneEntryPerPolicy(crypto: Crypto, boxes: iset<Box>, w: World, t: Tenant, actionId: Text, ipfsHash: Text,
                          fields: Fields, rows: seq<(nat, RuleRow)>, a: CheckArgs)
    requires ReadyToCheck(crypto, boxes, w, t, actionId, ipfsHash, fields, rows, a)
    ensures |rows| == |Enforced(w.runs[t])| == |a.valuesNum| == |a.valuesStr| == |a.attested| == |a.fields|
    ensures RuleCount(crypto.sha, w.chain, t) == |rows|
    ensures forall i :: 0 <= i < |rows| ==>
      MirrorAgrees(crypto, w.chain, w.tables, t, i, w.runs[t].specs[i]) && rows[i].1 == w.tables.rules[(t.org, t.agent, i)]
  {
    ListingOfPrefix(rows, w.tables, t.org, t.agent, InStore(w.runs[t]));
  }

  /** Rule `i` as the contract finds and judges it is policy `i` of the declaration. */
  ghost predicate JudgedAsDeclared(crypto: Crypto, c: Chain, t: Tenant, specs: seq<PolicySpec>, fields: Fields,
                                   a: CheckArgs, i: nat)
    requires i < |specs| == |a.valuesNum| == |a.valuesStr| == |a.attested| == |a.fields|
    requires Uint64ArrayFits(a.valuesNum) && Fits16(|a.valuesStr[i]|) && Answers(fields, specs[i])
  {
    var rule := RuleAt(crypto.sha, c, t, i);
    && rule.Some? && rule.value.field == a.fields[i] && (ReadsSet(rule.value) ==> a.valuesStr[i] != [])
    && Judge(crypto.sha, c, t, rule.value, a.valuesNum[i], a.valuesStr[i], a.attested[i])
       == Verdict(Holds(specs, specs[i], fields), if specs[i].isPrivate then Attested else Onchain)
  }

  lemma VerdictOfRule(crypto: Crypto, boxes: iset<Box>, w: World, t: Tenant, actionId: Text, ipfsHash: Text,
                      fields: Fields, rows: seq<(nat, RuleRow)>, a: CheckArgs, i: nat)
    requires ReadyToCheck(crypto, boxes, w, t, actionId, ipfsHash, fields, rows, a)
    requires i < |Enforced(w.runs[t])| == |a.valuesNum| == |a.valuesStr| == |a.attested| == |a.fields|
    ensures JudgedAsDeclared(crypto, w.chain, t, Enforced(w.runs[t]), fields, a, i)
  {
    var specs, slot := Enforced(w.runs[t]), Slot(a.valuesNum[i], a.valuesStr[i], a.attested[i]);
    var key, row := SlotOfPolicy(crypto, boxes, w, t, actionId, ipfsHash, fields, rows, a, i);
    assert specs[i] in specs;
    SetSlotIsText(crypto, key, row, specs[i], fields, slot);
    SetsOfTenant(crypto, boxes, w.chain, t, w.runs[t]);
    RuleVerdict(crypto, boxes, w.chain, t, specs, key, row, specs[i], fields, slot);
  }

  lemma SetsOfTenant(crypto: Crypto, boxes: iset<Box>, c: Chain, t: Tenant, run: Run)
    requires ChainPart(crypto, boxes, c, t, run)
    ensures SetsAgree(crypto, boxes, c, t, Enforced(run))
  {
    forall field: ArcString, value: ArcString | SetBox(t, field, value) in boxes
      ensures InSet(crypto.sha, c, t, field, value) <==> Declared(Enforced(run), |Enforced(run)|, field, value)
    {
      EnforcedSets(run, field, value);
    }
  }

  /** The row and the slot of the arrays that belong to policy `i`. */
  lemma SlotOfPolicy(crypto: Crypto, boxes: iset<Box>, w: World, t: Tenant, actionId: Text, ipfsHash: Text,
                     fields: Fields, rows: seq<(nat, RuleRow)>, a: CheckArgs, i: nat)
    returns (key: Bytes, row: RuleRow)
    requires ReadyToCheck(crypto, boxes, w, t, actionId, ipfsHash, fields, rows, a)
    requires i < |Enforced(w.runs[t])| == |a.valuesNum| == |a.valuesStr| == |a.attested| == |a.fields|
    ensures RowAgrees(crypto, w.chain, key, t, i, row, Enforced(w.runs[t])[i]) && a.fields[i] == row.field
    ensures SlotFor(crypto, key, row, fields) == Success(Slot(a.valuesNum[i], a.valuesStr[i], a.attested[i]))
  {
    OneEntryPerPolicy(crypto, boxes, w, t, actionId, ipfsHash, fields, rows, a);
    key, row := w.tables.orgs[t.org].encKey, rows[i].1;
    assert MirrorAgrees(crypto, w.chain, w.tables, t, i, w.runs[t].specs[i]);
    EnforcedRow(crypto, key, row, w.runs[t], i);
  }

  lemma SetSlotIsText(crypto: Crypto, key: Bytes, row: RuleRow, spec: PolicySpec, fields: Fields, slot: Slot)
    requires IsRowOf(crypto, key, row, spec) && Answers(fields, spec) && RowEncodable([], [], row)
    requires SlotFor(crypto, key, row, fields) == Success(slot)
    ensures ReadsSet(MirroredRule(row)) ==> slot.str != []
  {
    assert !spec.isPrivate ==> row == PublicRow(spec.operator, spec.valueNum, spec.field);
  }

  lemma AllJudged(crypto: Crypto, boxes: iset<Box>, w: World, t: Tenant, actionId: Text, ipfsHash: Text,
                  fields: Fields, rows: seq<(nat, RuleRow)>, a: CheckArgs)
    requires ReadyToCheck(crypto, boxes, w, t, actionId, ipfsHash, fields, rows, a)
    requires |Enforced(w.runs[t])| == |a.valuesNum| == |a.valuesStr| == |a.attested| == |a.fields|
    ensures forall i :: 0 <= i < |a.valuesNum| ==>
      Answers(fields, Enforced(w.runs[t])[i]) && JudgedAsDeclared(crypto, w.chain, t, Enforced(w.runs[t]), fields, a, i)
  {
    forall i | 0 <= i < |a.valuesNum|
      ensures Answers(fields, Enforced(w.runs[t])[i])
      ensures JudgedAsDeclared(crypto, w.chain, t, Enforced(w.runs[t]), fields, a, i)
    {
      assert Enforced(w.runs[t])[i] in Enforced(w.runs[t]);
      VerdictOfRule(crypto, boxes, w, t, actionId, ipfsHash, fields, rows, a, i);
    }
  }

  /** The verdicts are those of the declared policies, rule by rule, public or private. */
  predicate AsDeclared(specs: seq<PolicySpec>, fields: Fields, verdicts: seq<Verdict>)
    requires forall i :: 0 <= i < |specs| ==> Answers(fields, specs[i])
  {
    && |verdicts| == |specs|
    && forall i :: 0 <= i < |specs| ==>
         verdicts[i] == Verdict(Holds(specs, specs[i], fields), if specs[i].isPrivate then Attested else Onchain)
  }

  /** Every rule gets a verdict, that of its policy, and all pass exactly when all policies hold. */
  predicate DecidedBy(sha: Hash, c: Chain, call: Call, t: Tenant, args: CheckArrays, specs: seq<PolicySpec>, fields: Fields) {
    && (forall i :: 0 <= i < |specs| ==> Answers(fields, specs[i]))
    && var o := Outcome(sha, c, call, t, args);
       && o.Some? && AsDeclared(specs, fields, o.value)
       && (AllPassed(o.value) <==> AllHold(specs, fields))
  }

  predicate AllHold(specs: seq<PolicySpec>, fields: Fields)
    requires forall i :: 0 <= i < |specs| ==> Answers(fields, specs[i])
  {
    forall i :: 0 <= i < |specs| ==> Holds(specs, specs[i], fields)
  }

  /** A decided check of a few rules is confirmed exactly if it fails or a receipt is left. */
  lemma DecidedExactly(sha: Hash, c: Chain, call: Call, t: Tenant, args: CheckArrays, specs: seq<PolicySpec>, fields: Fields)
    requires DecidedBy(sha, c, call, t, args, specs, fields) && 0 < |specs| <= MAX_BOXES
    ensures Accepts(sha, c, call, t, args) <==> (AllHold(specs, fields) ==> c.receipts > 0)
  {
    SplitRender(Outcome(sha, c, call, t, args).value);
  }

  /**
   End-to-end verdict: for a tenant all of whose on-chain rules are stored, the contract evaluates
   every rule, and the decision passes exactly when every policy in force holds of its fields,
   public or private, numeric or set.
   */
  lemma EndToEndVerdict(crypto: Crypto, boxes: iset<Box>, w: World, t: Tenant, actionId: Text, ipfsHash: Text,
                        fields: Fields, rows: seq<(nat, RuleRow)>, a: CheckArgs)
    requires ReadyToCheck(crypto, boxes, w, t, actionId, ipfsHash, fields, rows, a)
    ensures DecidedBy(crypto.sha, w.chain, CallFor(crypto.sha, t.org, t.agent, actionId, ipfsHash, a), t, Arrays(a),
                      Enforced(w.runs[t]), fields)
  {
    var specs := Enforced(w.runs[t]);
    OneEntryPerPolicy(crypto, boxes, w, t, actionId, ipfsHash, fields, rows, a);
    AllJudged(crypto, boxes, w, t, actionId, ipfsHash, fields, rows, a);
    OutcomeAsDeclared(crypto, w.chain, t, specs, actionId, ipfsHash, fields, a);
  }

  /** It is confirmed exactly if, should all policies in force hold, a receipt is left. */
  lemma ReadyAccepts(crypto: Crypto, boxes: iset<Box>, w: World, t: Tenant, actionId: Text, ipfsHash: Text,
                     fields: Fields, rows: seq<(nat, RuleRow)>, a: CheckArgs)
    requires ReadyToCheck(crypto, boxes, w, t, actionId, ipfsHash, fields, rows, a)
    ensures forall i :: 0 <= i < |Enforced(w.runs[t])| ==> Answers(fields, Enforced(w.runs[t])[i])
    ensures Accepts(crypto.sha, w.chain, CallFor(crypto.sha, t.org, t.agent, actionId, ipfsHash, a), t, Arrays(a)) <==>
      (AllHold(Enforced(w.runs[t]), fields) ==> w.chain.receipts > 0)
  {
    EndToEndVerdict(crypto, boxes, w, t, actionId, ipfsHash, fields, rows, a);
    OneEntryPerPolicy(crypto, boxes, w, t, actionId, ipfsHash, fields, rows, a);
    DecidedExactly(crypto.sha, w.chain, CallFor(crypto.sha, t.org, t.agent, actionId, ipfsHash, a), t, Arrays(a),
                   Enforced(w.runs[t]), fields);
  }

  lemma OutcomeAsDeclared(crypto: Crypto, c: Chain, t: Tenant, specs: seq<PolicySpec>, actionId: Text, ipfsHash: Text,
                          fields: Fields, a: CheckArgs)
    requires Sendable(t.org, t.agent, actionId, ipfsHash, a) && 1 + |a.valuesNum| + NonEmpty(a.valuesStr) <= MAX_BOXES
    requires 0 < |specs| == |a.valuesNum| == |a.valuesStr| == |a.attested| == |a.fields| == RuleCount(crypto.sha, c, t)
    requires forall i :: 0 <= i < |specs| ==>
      Answers(fields, specs[i]) && JudgedAsDeclared(crypto, c, t, specs, fields, a, i)
    ensures DecidedBy(crypto.sha, c, CallFor(crypto.sha, t.org, t.agent, actionId, ipfsHash, a), t, Arrays(a), specs, fields)
  {
    var call, args := CallFor(crypto.sha, t.org, t.agent, actionId, ipfsHash, a), Arrays(a);
    assert Tenant(t.org, t.agent) == t;
    forall i | 0 <= i < |a.valuesNum|
      ensures
        var rule := RuleAt(crypto.sha, c, t, i);
        rule.Some? && rule.value.field == a.fields[i] && (ReadsSet(rule.value) ==> a.valuesStr[i] != [])
    {
      assert JudgedAsDeclared(crypto, c, t, specs, fields, a, i);
    }
    BoxCoverage(crypto.sha, c, t.org, t.agent, actionId, ipfsHash, a);
    var o := Outcome(crypto.sha, c, call, t, args);
    forall i | 0 <= i < |specs|
      ensures o.value[i] == Verdict(Holds(specs, specs[i], fields), if specs[i].isPrivate then Attested else Onchain)
    {
      assert VerdictAt(crypto.sha, c, call, t, args, i) == Some(o.value[i]);
      assert JudgedAsDeclared(crypto, c, t, specs, fields, a, i);
    }
    VerdictsDecide(specs, fields, o.value);
  }

  lemma VerdictsDecide(specs: seq<PolicySpec>, fields: Fields, verdicts: seq<Verdict>)
    requires (forall i :: 0 <= i < |specs| ==> Answers(fields, specs[i])) && AsDeclared(specs, fields, verdicts)
    ensures AllPassed(verdicts) <==> AllHold(specs, fields)
  {
    forall i | 0 <= i < |specs|
      ensures verdicts[i].passed <==> Holds(specs, specs[i], fields)
    {
    }
  }

  // ----- When no check is accepted -----

  /** While a rule is on-chain but not yet stored, or after a crash between the two, every check is refused. */
  lemma UnstoredRuleRefuses(crypto: Crypto, boxes: iset<Box>, w: World, t: Tenant, call: Call, key: Bytes,
                            fields: Fields, rows: seq<(nat, RuleRow)>, a: CheckArgs)
    requires TenantInv(crypto, boxes, w, t) && w.runs[t].phase.Registered?
    requires IsListing(rows, w.tables, t.org, t.agent) && ArgsFor(crypto, key, rows, fields, a)
    requires Uint64ArrayFits(a.valuesNum) && StringArrayFits(a.valuesStr)
    ensures !Accepts(crypto.sha, w.chain, call, t, Arrays(a))
  {
    ListingOfPrefix(rows, w.tables, t.org, t.agent, InStore(w.runs[t]));
  }

  /**
   For a live tenant: a check is confirmed exactly if no rule waits to be stored and, should all
   policies in force hold, a receipt is left.
   */
  lemma ConfirmedExactly(crypto: Crypto, boxes: iset<Box>, w: World, t: Tenant, actionId: Text, ipfsHash: Text,
                         fields: Fields, rows: seq<(nat, RuleRow)>, a: CheckArgs)
    requires CheckInputs(crypto, boxes, w, t, actionId, ipfsHash, fields, rows, a)
    requires TenantInv(crypto, boxes, w, t) && Authentic(crypto)
    ensures forall i :: 0 <= i < |Enforced(w.runs[t])| ==> Answers(fields, Enforced(w.runs[t])[i])
    ensures Confirmable(crypto.sha, w.chain, t.org, t.agent, actionId, ipfsHash, a) <==>
      !w.runs[t].phase.Registered? && (AllHold(Enforced(w.runs[t]), fields) ==> w.chain.receipts > 0)
  {
    var call := CallFor(crypto.sha, t.org, t.agent, actionId, ipfsHash, a);
    ConfirmableIfAccepted(crypto.sha, w.chain, t, actionId, ipfsHash, a);
    if w.runs[t].phase.Registered? {
      UnstoredRuleRefuses(crypto, boxes, w, t, call, w.tables.orgs[t.org].encKey, fields, rows, a);
    } else {
      ReadyAccepts(crypto, boxes, w, t, actionId, ipfsHash, fields, rows, a);
    }
  }

  lemma ConfirmableIfAccepted(sha: Hash, c: Chain, t: Tenant, actionId: Text, ipfsHash: Text, a: CheckArgs)
    requires Sendable(t.org, t.agent, actionId, ipfsHash, a)
    ensures Confirmable(sha, c, t.org, t.agent, actionId, ipfsHash, a) <==>
      Accepts(sha, c, CallFor(sha, t.org, t.agent, actionId, ipfsHash, a), t, Arrays(a))
  {
    assert Tenant(t.org, t.agent) == t;
  }
}
