/**
 The multi-tenant policy contract of contracts/policy_contract.py: its boxes, the methods that
 write them, the evaluation of a decision, and the isolation of tenants from each other.
 */
module PolicyContracts {
  import opened Basics
  import opened Arc4
  import opened BoxKeys
  import opened ResultString

  const OP_LT := 1
  const OP_LE := 2
  const OP_GT := 3
  const OP_GE := 4
  const OP_EQ := 5
  const OP_NE := 6
  const OP_IN := 7
  const OP_NOT_IN := 8

  const MODE_ONCHAIN := 1
  const MODE_ATTESTED := 2

  datatype ContractError =
    | NotCreator | UnreferencedBox | NoPolicies | LengthMismatch | MissingRuleBox
    | ValueNotInSet | IndexOverflow | ResultTooLong | NoReceiptsLeft

  /** An application call: whether the creator sent it, and the names of the boxes it may touch. */
  datatype Call = Call(fromCreator: bool, boxes: set<Bytes>)

  /** The contract's boxes by name, and the AACR receipts it holds. */
  datatype Chain = Chain(
    rules: map<Bytes, PolicyRule>, counts: map<Bytes, uint64>, sets: map<Bytes, bool>, receipts: nat)

  // ----- A tenant's view of the boxes -----

  function RuleCount(sha: Hash, c: Chain, t: Tenant): uint64 {
    var name := BoxName(sha, CountBox(t));
    if name in c.counts then c.counts[name] else 0
  }

  function RuleAt(sha: Hash, c: Chain, t: Tenant, i: nat): Option<PolicyRule> {
    if !Fits64(i) then None
    else
      var name := BoxName(sha, RuleBox(t, i));
      if name in c.rules then Some(c.rules[name]) else None
  }

  predicate InSet(sha: Hash, c: Chain, t: Tenant, field: ArcString, value: ArcString) {
    BoxName(sha, SetBox(t, field, value)) in c.sets
  }

  // ----- Evaluation of a decision -----

  /** The arrays of a check, aligned by index to the stored rules. */
  datatype CheckArrays = CheckArrays(nums: seq<uint64>, strs: seq<ArcString>, attested: seq<bool>)

  predicate Aligned(args: CheckArrays, n: nat) {
    |args.nums| == |args.strs| == |args.attested| == n
  }

  predicate IsSetOperator(operator: int) {
    operator == OP_IN || operator == OP_NOT_IN
  }

  /** The comparison that an operator code stands for; every unknown code compares as `!=`. */
  predicate Compare(operator: int, lhs: int, rhs: int) {
    if operator == OP_LT then lhs < rhs
    else if operator == OP_LE then lhs <= rhs
    else if operator == OP_GT then lhs > rhs
    else if operator == OP_GE then lhs >= rhs
    else if operator == OP_EQ then lhs == rhs
    else lhs != rhs
  }

  function Judge(sha: Hash, c: Chain, t: Tenant, rule: PolicyRule, num: uint64, str: ArcString, attested: bool): Verdict {
    if rule.mode != MODE_ONCHAIN then Verdict(attested, Attested)
    else if IsSetOperator(rule.operator) then
      Verdict(InSet(sha, c, t, rule.field, str) == (rule.operator == OP_IN), Onchain)
    else Verdict(Compare(rule.operator, num, rule.valueNum), Onchain)
  }

  /** What a verdict means, by the operator codes as they stand on-chain. */
  lemma JudgeMeans(sha: Hash, c: Chain, t: Tenant, rule: PolicyRule, num: uint64, str: ArcString, attested: bool)
    ensures
      var v := Judge(sha, c, t, rule, num, str, attested);
      && (rule.mode == 1 ==>
            && v.layer.Onchain?
            && (rule.operator == 1 ==> (v.passed <==> num < rule.valueNum))
            && (rule.operator == 2 ==> (v.passed <==> num <= rule.valueNum))
            && (rule.operator == 3 ==> (v.passed <==> num > rule.valueNum))
            && (rule.operator == 4 ==> (v.passed <==> num >= rule.valueNum))
            && (rule.operator == 5 ==> (v.passed <==> num == rule.valueNum))
            && (rule.operator == 7 ==> (v.passed <==> BoxName(sha, SetBox(t, rule.field, str)) in c.sets))
            && (rule.operator == 8 ==> (v.passed <==> BoxName(sha, SetBox(t, rule.field, str)) !in c.sets))
            && (!(1 <= rule.operator <= 5) && rule.operator != 7 && rule.operator != 8 ==>
                  (v.passed <==> num != rule.valueNum)))
      && (rule.mode != 1 ==> v.layer.Attested? && (v.passed <==> attested))
  {
  }

  predicate ReadsSet(rule: PolicyRule) {
    rule.mode == MODE_ONCHAIN && IsSetOperator(rule.operator)
  }

  /** The verdict of rule `i`, unless one of the boxes it needs is missing or not referenced by the call. */
  function VerdictAt(sha: Hash, c: Chain, call: Call, t: Tenant, args: CheckArrays, i: nat): Option<Verdict>
    requires Aligned(args, |args.nums|) && i < |args.nums|
  {
    var rule := RuleAt(sha, c, t, i);
    if rule.None? || BoxName(sha, RuleBox(t, i)) !in call.boxes then None
    else if ReadsSet(rule.value) && BoxName(sha, SetBox(t, rule.value.field, args.strs[i])) !in call.boxes then None
    else Some(Judge(sha, c, t, rule.value, args.nums[i], args.strs[i], args.attested[i]))
  }

  /** The verdicts of all rules, if each of them has one. */
  function Evaluate(sha: Hash, c: Chain, call: Call, t: Tenant, args: CheckArrays): Option<seq<Verdict>>
    requires Aligned(args, |args.nums|)
  {
    if forall i :: 0 <= i < |args.nums| ==> VerdictAt(sha, c, call, t, args, i).Some? then
      Some(seq(|args.nums|, i requires 0 <= i < |args.nums| => VerdictAt(sha, c, call, t, args, i).value))
    else None
  }

  /** `verdicts` are those of the first rules, in order. */
  ghost predicate Judged(sha: Hash, c: Chain, call: Call, t: Tenant, args: CheckArrays, verdicts: seq<Verdict>)
    requires Aligned(args, |args.nums|) && |verdicts| <= |args.nums|
  {
    verdicts == [] ||
    var n := |verdicts| - 1;
    Judged(sha, c, call, t, args, verdicts[..n]) && VerdictAt(sha, c, call, t, args, n) == Some(verdicts[n])
  }

  lemma JudgedSnoc(sha: Hash, c: Chain, call: Call, t: Tenant, args: CheckArrays, verdicts: seq<Verdict>, v: Verdict)
    requires Aligned(args, |args.nums|) && |verdicts| < |args.nums|
    requires Judged(sha, c, call, t, args, verdicts)
    requires VerdictAt(sha, c, call, t, args, |verdicts|) == Some(v)
    ensures Judged(sha, c, call, t, args, verdicts + [v])
  {
    assert (verdicts + [v])[..|verdicts|] == verdicts;
  }

  lemma {:induction false} JudgedAt(sha: Hash, c: Chain, call: Call, t: Tenant, args: CheckArrays,
                                    verdicts: seq<Verdict>, i: nat)
    requires Aligned(args, |args.nums|) && i < |verdicts| <= |args.nums|
    requires Judged(sha, c, call, t, args, verdicts)
    ensures VerdictAt(sha, c, call, t, args, i) == Some(verdicts[i])
  {
    if i < |verdicts| - 1 {
      JudgedAt(sha, c, call, t, args, verdicts[..|verdicts| - 1], i);
    }
  }

  lemma EvaluateIs(sha: Hash, c: Chain, call: Call, t: Tenant, args: CheckArrays, verdicts: seq<Verdict>)
    requires Aligned(args, |verdicts|) && Judged(sha, c, call, t, args, verdicts)
    ensures Evaluate(sha, c, call, t, args) == Some(verdicts)
  {
    forall i | 0 <= i < |verdicts|
      ensures VerdictAt(sha, c, call, t, args, i) == Some(verdicts[i])
    {
      JudgedAt(sha, c, call, t, args, verdicts, i);
    }
    var e := Evaluate(sha, c, call, t, args);
    assert e.Some? && e.value == verdicts;
  }

  /** The verdicts of a call that passes every assertion, before the receipt is sent. */
  function Outcome(sha: Hash, c: Chain, call: Call, t: Tenant, args: CheckArrays): Option<seq<Verdict>> {
    var count := RuleCount(sha, c, t);
    if call.fromCreator && BoxName(sha, CountBox(t)) in call.boxes && count > 0 && Aligned(args, count) then
      Evaluate(sha, c, call, t, args)
    else None
  }

  /** Exactly when a check is confirmed rather than rejected as a transaction. */
  predicate Accepts(sha: Hash, c: Chain, call: Call, t: Tenant, args: CheckArrays) {
    var o := Outcome(sha, c, call, t, args);
    o.Some? && Fits16(|Render(o.value)|) && (AllPassed(o.value) ==> c.receipts > 0)
  }

  /** What a check needs for its rules to be evaluated, assertion by assertion; to be confirmed it needs room for its result and, if all rules pass, a receipt. */
  lemma AcceptsMeans(sha: Hash, c: Chain, call: Call, t: Tenant, args: CheckArrays)
    ensures Outcome(sha, c, call, t, args).Some? <==>
      && call.fromCreator
      && BoxName(sha, CountBox(t)) in call.boxes && BoxName(sha, CountBox(t)) in c.counts
      && c.counts[BoxName(sha, CountBox(t))] > 0
      && |args.nums| == |args.strs| == |args.attested| == c.counts[BoxName(sha, CountBox(t))]
      && (forall i: nat :: i < |args.nums| ==> RuleIsReadable(sha, c, call, t, args, i))
    ensures Accepts(sha, c, call, t, args) <==>
      && Outcome(sha, c, call, t, args).Some?
      && var verdicts := Outcome(sha, c, call, t, args).value;
         |Render(verdicts)| < 0x1_0000 && (c.receipts == 0 ==> exists i :: 0 <= i < |verdicts| && !verdicts[i].passed)
  {
    if Aligned(args, |args.nums|) && Fits64(|args.nums|) {
      forall i: nat | i < |args.nums|
        ensures VerdictAt(sha, c, call, t, args, i).Some? <==> RuleIsReadable(sha, c, call, t, args, i)
      {
      }
    }
  }

  /** The box of rule `i` exists and is referenced, and so is the set box that an in/not_in rule reads. */
  predicate RuleIsReadable(sha: Hash, c: Chain, call: Call, t: Tenant, args: CheckArrays, i: nat)
    requires i < |args.strs|
  {
    && Fits64(i)
    && var name := BoxName(sha, RuleBox(t, i));
       && name in call.boxes && name in c.rules
       && (c.rules[name].mode == 1 && (c.rules[name].operator == 7 || c.rules[name].operator == 8) ==>
             BoxName(sha, SetBox(t, c.rules[name].field, args.strs[i])) in call.boxes)
  }

  // ----- Effects -----

  datatype Effect =
    | Register(tenant: Tenant, rule: PolicyRule)
    | AddValue(tenant: Tenant, field: ArcString, value: ArcString)
    | RemoveValue(tenant: Tenant, field: ArcString, value: ArcString)
    | Receipt(tenant: Tenant)

  /** What a confirmed call does to the boxes and to the receipts. */
  function Apply(sha: Hash, c: Chain, e: Effect): Chain {
    match e
    case Register(t, rule) =>
      var count := RuleCount(sha, c, t);
      if count + 1 == 0x1_0000_0000_0000_0000 then c
      else
        c.(rules := c.rules[BoxName(sha, RuleBox(t, count)) := rule],
           counts := c.counts[BoxName(sha, CountBox(t)) := count + 1])
    case AddValue(t, field, value) =>
      c.(sets := c.sets[BoxName(sha, SetBox(t, field, value)) := true])
    case RemoveValue(t, field, value) =>
      c.(sets := c.sets - {BoxName(sha, SetBox(t, field, value))})
    case Receipt(_) => if c.receipts == 0 then c else c.(receipts := c.receipts - 1)
  }

  // ----- Calls -----

  datatype ContractCall =
    | RegisterRuleCall(call: Call, tenant: Tenant, rule: PolicyRule)
    | AddToSetCall(call: Call, tenant: Tenant, field: ArcString, value: ArcString)
    | RemoveFromSetCall(call: Call, tenant: Tenant, field: ArcString, value: ArcString)
    | CheckAndMintCall(call: Call, tenant: Tenant, args: CheckArrays)

  /** Exactly when a call is confirmed; a rejected transaction has no effect. */
  predicate Confirmed(sha: Hash, c: Chain, k: ContractCall) {
    match k
    case RegisterRuleCall(call, t, _) =>
      && call.fromCreator
      && BoxName(sha, CountBox(t)) in call.boxes
      && BoxName(sha, RuleBox(t, RuleCount(sha, c, t))) in call.boxes
      && RuleCount(sha, c, t) + 1 < 0x1_0000_0000_0000_0000
    case AddToSetCall(call, t, field, value) => call.fromCreator && BoxName(sha, SetBox(t, field, value)) in call.boxes
    case RemoveFromSetCall(call, t, field, value) =>
      call.fromCreator && BoxName(sha, SetBox(t, field, value)) in call.boxes && InSet(sha, c, t, field, value)
    case CheckAndMintCall(call, t, args) => Accepts(sha, c, call, t, args)
  }

  /** A confirmed check in which every rule passed. */
  predicate Mints(sha: Hash, c: Chain, k: ContractCall) {
    k.CheckAndMintCall? && Confirmed(sha, c, k) && AllPassed(Outcome(sha, c, k.call, k.tenant, k.args).value)
  }

  function AfterCall(sha: Hash, c: Chain, k: ContractCall): Chain {
    if !Confirmed(sha, c, k) then c
    else
      match k
      case RegisterRuleCall(_, t, rule) => Apply(sha, c, Register(t, rule))
      case AddToSetCall(_, t, field, value) => Apply(sha, c, AddValue(t, field, value))
      case RemoveFromSetCall(_, t, field, value) => Apply(sha, c, RemoveValue(t, field, value))
      case CheckAndMintCall(_, t, _) => if Mints(sha, c, k) then Apply(sha, c, Receipt(t)) else c
  }

  class PolicyContract {
    const sha: Hash
    var tenantRules: map<Bytes, PolicyRule>
    var ruleCounts: map<Bytes, uint64>
    var sets: map<Bytes, bool>
    var receipts: nat

    constructor (sha: Hash, receipts: nat)
      ensures this.sha == sha && State() == Chain(map[], map[], map[], receipts)
    {
      this.sha := sha;
      tenantRules, ruleCounts, sets, this.receipts := map[], map[], map[], receipts;
    }

    function State(): Chain
      reads this
    {
      Chain(tenantRules, ruleCounts, sets, receipts)
    }

    method RegisterRule(call: Call, t: Tenant, rule: PolicyRule)
      returns (r: Result<uint64, ContractError>)
      modifies this
      ensures r.Success? <==>
        && call.fromCreator
        && BoxName(sha, CountBox(t)) in call.boxes
        && BoxName(sha, RuleBox(t, RuleCount(sha, old(State()), t))) in call.boxes
        && RuleCount(sha, old(State()), t) + 1 < 0x1_0000_0000_0000_0000
      ensures r.Success? ==> r.value == RuleCount(sha, old(State()), t)
      ensures r.Success? <==> Confirmed(sha, old(State()), RegisterRuleCall(call, t, rule))
      ensures State() == AfterCall(sha, old(State()), RegisterRuleCall(call, t, rule))
      ensures State() == if r.Success? then Apply(sha, old(State()), Register(t, rule)) else old(State())
      ensures r.Success? ==>
        && tenantRules == old(tenantRules)[BoxName(sha, RuleBox(t, r.value)) := rule]
        && ruleCounts == old(ruleCounts)[BoxName(sha, CountBox(t)) := r.value + 1]
        && sets == old(sets) && receipts == old(receipts)
    {
      if !call.fromCreator {
        return Failure(NotCreator);
      }
      var countKey := BoxName(sha, CountBox(t));
      if countKey !in call.boxes {
        return Failure(UnreferencedBox);
      }
      var idx: uint64 := if countKey in ruleCounts then ruleCounts[countKey] else 0;
      var ruleKey := BoxName(sha, RuleBox(t, idx));
      if ruleKey !in call.boxes {
        return Failure(UnreferencedBox);
      }
      if idx + 1 == 0x1_0000_0000_0000_0000 {
        return Failure(IndexOverflow);
      }
      tenantRules := tenantRules[ruleKey := rule];
      ruleCounts := ruleCounts[countKey := idx + 1];
      r := Success(idx);
    }

    method AddToSet(call: Call, t: Tenant, field: ArcString, value: ArcString)
      returns (r: Result<(), ContractError>)
      modifies this
      ensures r.Success? <==> call.fromCreator && BoxName(sha, SetBox(t, field, value)) in call.boxes
      ensures State() == AfterCall(sha, old(State()), AddToSetCall(call, t, field, value))
      ensures State() == if r.Success? then Apply(sha, old(State()), AddValue(t, field, value)) else old(State())
      ensures r.Success? ==>
        && InSet(sha, State(), t, field, value)
        && sets.Keys == old(sets.Keys) + {BoxName(sha, SetBox(t, field, value))}
        && tenantRules == old(tenantRules) && ruleCounts == old(ruleCounts) && receipts == old(receipts)
    {
      if !call.fromCreator {
        return Failure(NotCreator);
      }
      var setKey := BoxName(sha, SetBox(t, field, value));
      if setKey !in call.boxes {
        return Failure(UnreferencedBox);
      }
      sets := sets[setKey := true];
      r := Success(());
    }

    method RemoveFromSet(call: Call, t: Tenant, field: ArcString, value: ArcString)
      returns (r: Result<(), ContractError>)
      modifies this
      ensures r.Success? <==>
        && call.fromCreator && BoxName(sha, SetBox(t, field, value)) in call.boxes
        && InSet(sha, old(State()), t, field, value)
      ensures State() == AfterCall(sha, old(State()), RemoveFromSetCall(call, t, field, value))
      ensures State() == if r.Success? then Apply(sha, old(State()), RemoveValue(t, field, value)) else old(State())
      ensures r.Success? ==>
        && !InSet(sha, State(), t, field, value)
        && sets.Keys == old(sets.Keys) - {BoxName(sha, SetBox(t, field, value))}
        && tenantRules == old(tenantRules) && ruleCounts == old(ruleCounts) && receipts == old(receipts)
    {
      if !call.fromCreator {
        return Failure(NotCreator);
      }
      var setKey := BoxName(sha, SetBox(t, field, value));
      if setKey !in call.boxes {
        return Failure(UnreferencedBox);
      }
      if setKey !in sets {
        return Failure(ValueNotInSet);
      }
      sets := sets - {setKey};
      r := Success(());
    }

    /** The body of the loop in `CheckAndMint`: reads one rule and judges the decision by it. */
    method CheckRule(call: Call, t: Tenant, args: CheckArrays, i: nat) returns (r: Result<Verdict, ContractError>)
      requires Aligned(args, |args.nums|) && i < |args.nums| && Fits64(i)
      ensures match VerdictAt(sha, State(), call, t, args, i)
        case Some(v) => r == Success(v)
        case None => r == Failure(UnreferencedBox) || r == Failure(MissingRuleBox)
      ensures r.Success? ==> RuleAt(sha, State(), t, i).Some?
      ensures r.Success? ==>
        var rule, num, str, passed := RuleAt(sha, State(), t, i).value, args.nums[i], args.strs[i], r.value.passed;
        && (rule.mode == 1 ==>
              && (rule.operator == 1 ==> (passed <==> num < rule.valueNum))
              && (rule.operator == 2 ==> (passed <==> num <= rule.valueNum))
              && (rule.operator == 3 ==> (passed <==> num > rule.valueNum))
              && (rule.operator == 4 ==> (passed <==> num >= rule.valueNum))
              && (rule.operator == 5 ==> (passed <==> num == rule.valueNum))
              && (rule.operator == 6 ==> (passed <==> num != rule.valueNum))
              && (rule.operator == 7 ==> (passed <==> BoxName(sha, SetBox(t, rule.field, str)) in sets))
              && (rule.operator == 8 ==> (passed <==> BoxName(sha, SetBox(t, rule.field, str)) !in sets)))
        && (rule.mode != 1 ==> (passed <==> args.attested[i]))
    {
      var ruleKey := BoxName(sha, RuleBox(t, i));
      if ruleKey !in call.boxes {
        return Failure(UnreferencedBox);
      }
      if ruleKey !in tenantRules {
        return Failure(MissingRuleBox);
      }
      var rule := tenantRules[ruleKey];
      var passed, provenance := false, Onchain;
      if rule.mode == MODE_ONCHAIN {
        if rule.operator == OP_IN || rule.operator == OP_NOT_IN {
          var setKey := BoxName(sha, SetBox(t, rule.field, args.strs[i]));
          if setKey !in call.boxes {
            return Failure(UnreferencedBox);
          }
          passed := if rule.operator == OP_IN then setKey in sets else setKey !in sets;
        } else {
          passed := Compare(rule.operator, args.nums[i], rule.valueNum);
        }
      } else {
        provenance := Attested;
        passed := args.attested[i];
      }
      r := Success(Verdict(passed, provenance));
    }

    /** The loop of `CheckAndMint`. */
    method EvaluateRules(call: Call, t: Tenant, args: CheckArrays) returns (r: Result<(bool, Text), ContractError>)
      requires Aligned(args, |args.nums|) && Fits64(|args.nums|)
      ensures match Evaluate(sha, State(), call, t, args)
        case Some(verdicts) => r == Success((AllPassed(verdicts), Render(verdicts)))
        case None => r.Failure?
    {
      var allPass, result: Text := true, [];
      ghost var verdicts: seq<Verdict>, c := [], State();
      for i := 0 to |args.nums|
        invariant |verdicts| == i
        invariant Judged(sha, c, call, t, args, verdicts)
        invariant allPass == AllPassed(verdicts) && result == Render(verdicts)
      {
        var checked := CheckRule(call, t, args, i);
        if checked.Failure? {
          return Failure(checked.error);
        }
        var passed, provenance := checked.value.passed, LayerName(checked.value.layer);
        if !passed {
          allPass := false;
        }
        var token := (if passed then PASS else FAIL) + [COLON];
        RenderSnoc(verdicts, checked.value);
        if i == 0 {
          result := token + provenance;
        } else {
          result := result + [BAR] + token + provenance;
        }
        JudgedSnoc(sha, c, call, t, args, verdicts, checked.value);
        verdicts := verdicts + [checked.value];
      }
      EvaluateIs(sha, c, call, t, args, verdicts);
      r := Success((allPass, result));
    }

    method CheckAndMint(call: Call, t: Tenant, actionId: ArcString, ipfsHash: ArcString, args: CheckArrays)
      returns (r: Result<ArcString, ContractError>)
      modifies this
      ensures r.Success? <==> Accepts(sha, old(State()), call, t, args)
      ensures r.Success? ==> r.value == Render(Outcome(sha, old(State()), call, t, args).value)
      ensures State() == AfterCall(sha, old(State()), CheckAndMintCall(call, t, args))
      ensures receipts == old(receipts) -
        if r.Success? && AllPassed(Outcome(sha, old(State()), call, t, args).value) then 1 else 0
    {
      if !call.fromCreator {
        return Failure(NotCreator);
      }
      var countKey := BoxName(sha, CountBox(t));
      if countKey !in call.boxes {
        return Failure(UnreferencedBox);
      }
      var ruleCount: uint64 := if countKey in ruleCounts then ruleCounts[countKey] else 0;
      if ruleCount == 0 {
        return Failure(NoPolicies);
      }
      if |args.nums| != ruleCount || |args.strs| != ruleCount || |args.attested| != ruleCount {
        return Failure(LengthMismatch);
      }
      var evaluated := EvaluateRules(call, t, args);
      if evaluated.Failure? {
        return Failure(evaluated.error);
      }
      var (allPass, result) := evaluated.value;
      if !Fits16(|result|) {
        return Failure(ResultTooLong);
      }
      if allPass {
        if receipts == 0 {
          return Failure(NoReceiptsLeft);
        }
        receipts := receipts - 1;
      }
      r := Success(result);
    }
  }
}
