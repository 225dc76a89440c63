/**
 The client's calls of the policy contract: arguments are encoded, sent with a list of box
 references, decoded by the contract, and the logged result is decoded again.
 */
module ContractClient {
  import opened Basics
  import opened Arc4
  import opened BoxKeys
  import opened ResultString
  import opened PolicyContracts

  /** What the network does to a transaction; an unconfirmed one takes effect, but the caller sees a failure. */
  datatype Network = Delivered | Dropped | Unconfirmed

  datatype ClientError = CannotEncode | FieldMissing | Rejected(cause: ContractError) | NoConfirmation

  // ----- register_rule -----

  predicate RuleEncodable(org: Text, agent: Text, mode: int, operator: int, valueNum: int, field: Text, commitment: Text) {
    && Fits16(|org|) && Fits16(|agent|)
    && Fits64(mode) && Fits64(operator) && Fits64(valueNum)
    && Fits16(|commitment|) && Fits16(30 + |field|)
  }

  /** The four bytes that mark a return value in the log. */
  const RETURN_PREFIX: Bytes := [0x15, 0x1f, 0x7c, 0x75]

  /** The index that the client reads from the last log entry; without one it keeps its own guess. */
  function IndexFromLog(log: Option<Bytes>, guess: nat): nat {
    if log.Some? && |log.value| >= 12 then Read64(log.value[4..12]) else guess
  }

  /** The client reads back the index that the contract returned, whatever it guessed. */
  lemma IndexRoundTrip(prefix: Bytes, index: uint64, guess: nat)
    requires |prefix| == 4
    ensures IndexFromLog(Some(prefix + Word64(index)), guess) == index
  {
    assert (prefix + Word64(index))[4..12] == Word64(index);
  }

  /**
   Appends a rule.  `countRead` tells whether the preceding read of the count box succeeded; a
   failed read counts as zero, and the box reference is then wrong unless there is no rule yet.
   */
  method RegisterRule(contract: PolicyContract, org: Text, agent: Text, mode: int, operator: int, valueNum: int,
                      field: Text, commitment: Text, countRead: bool, net: Network)
    returns (r: Result<nat, ClientError>)
    modifies contract
    ensures r.Success? ==>
      && RuleEncodable(org, agent, mode, operator, valueNum, field, commitment)
      && r.value == RuleCount(contract.sha, old(contract.State()), Tenant(org, agent))
      && r.value + 1 < 0x1_0000_0000_0000_0000
      && contract.State() == Apply(contract.sha, old(contract.State()),
           Register(Tenant(org, agent), PolicyRule(mode, operator, valueNum, field, commitment)))
    ensures r.Failure? && contract.State() != old(contract.State()) ==>
      && net.Unconfirmed?
      && RuleEncodable(org, agent, mode, operator, valueNum, field, commitment)
      && RuleCount(contract.sha, old(contract.State()), Tenant(org, agent)) + 1 < 0x1_0000_0000_0000_0000
      && contract.State() == Apply(contract.sha, old(contract.State()),
           Register(Tenant(org, agent), PolicyRule(mode, operator, valueNum, field, commitment)))
    ensures
      && RuleEncodable(org, agent, mode, operator, valueNum, field, commitment) && net.Delivered? && countRead
      && RuleCount(contract.sha, old(contract.State()), Tenant(org, agent)) + 1 < 0x1_0000_0000_0000_0000
      ==> r.Success?
  {
    var rule := BuildPolicyRule(mode, operator, valueNum, field, commitment);
    if EncodeString(org).Failure? || EncodeString(agent).Failure? || rule.Failure? {
      return Failure(CannotEncode);
    }
    var t := Tenant(org, agent);
    var nextIndex := if countRead then RuleCount(contract.sha, contract.State(), t) else 0;
    var boxes := {BoxName(contract.sha, CountBox(t)), BoxName(contract.sha, RuleBox(t, nextIndex))};
    if net.Dropped? {
      return Failure(NoConfirmation);
    }
    var appended := contract.RegisterRule(Call(true, boxes), t, DecodePolicyRule(rule.value).value);
    if appended.Failure? {
      return Failure(Rejected(appended.error));
    }
    if net.Unconfirmed? {
      return Failure(NoConfirmation);
    }
    IndexRoundTrip(RETURN_PREFIX, appended.value, nextIndex);
    r := Success(IndexFromLog(Some(RETURN_PREFIX + Word64(appended.value)), nextIndex));
  }

  // ----- add_to_set -----

  predicate ValueEncodable(org: Text, agent: Text, field: Text, value: Text) {
    Fits16(|org|) && Fits16(|agent|) && Fits16(|field|) && Fits16(|value|)
  }

  method AddToSet(contract: PolicyContract, org: Text, agent: Text, field: Text, value: Text, net: Network)
    returns (r: Result<(), ClientError>)
    modifies contract
    ensures r.Success? <==> net.Delivered? && ValueEncodable(org, agent, field, value)
    ensures r.Success? ==>
      contract.State() == Apply(contract.sha, old(contract.State()), AddValue(Tenant(org, agent), field, value))
    ensures r.Failure? && contract.State() != old(contract.State()) ==>
      && net.Unconfirmed? && ValueEncodable(org, agent, field, value)
      && contract.State() == Apply(contract.sha, old(contract.State()), AddValue(Tenant(org, agent), field, value))
  {
    if !ValueEncodable(org, agent, field, value) {
      return Failure(CannotEncode);
    }
    if net.Dropped? {
      return Failure(NoConfirmation);
    }
    var t := Tenant(org, agent);
    var added := contract.AddToSet(Call(true, {BoxName(contract.sha, SetBox(t, field, value))}), t, field, value);
    if added.Failure? || net.Unconfirmed? {
      return Failure(NoConfirmation);
    }
    r := Success(());
  }

  // ----- submit_policy_check -----

  datatype CheckArgs = CheckArgs(valuesNum: seq<int>, valuesStr: seq<Text>, attested: seq<bool>, fields: seq<Text>)

  datatype PolicyCheckResult = PolicyCheckResult(policyResult: Text, asaMinted: bool)

  /** Every text, number and array of the call fits its encoding. */
  predicate Sendable(org: Text, agent: Text, actionId: Text, ipfsHash: Text, a: CheckArgs) {
    && Fits16(|org|) && Fits16(|agent|) && Fits16(|actionId|) && Fits16(|ipfsHash|)
    && Uint64ArrayFits(a.valuesNum) && StringArrayFits(a.valuesStr) && Fits16(|a.attested|)
    && FieldsGiven(a)
  }

  function Arrays(a: CheckArgs): CheckArrays
    requires Uint64ArrayFits(a.valuesNum) && StringArrayFits(a.valuesStr)
  {
    CheckArrays(a.valuesNum, a.valuesStr, a.attested)
  }

  function RuleBoxes(t: Tenant, n: uint16): seq<Box> {
    seq(n, i requires 0 <= i < n => RuleBox(t, i))
  }

  /** The set box that is listed for value `i`: none for an empty value. */
  function SetBoxAt(t: Tenant, a: CheckArgs, i: nat): Option<Box> {
    if i < |a.valuesStr| && a.valuesStr[i] != [] && i < |a.fields| && Fits16(|a.fields[i]|) && Fits16(|a.valuesStr[i]|) then
      Some(SetBox(t, a.fields[i], a.valuesStr[i]))
    else None
  }

  function SetBoxes(t: Tenant, a: CheckArgs, n: nat): seq<Box> {
    if n == 0 then []
    else SetBoxes(t, a, n - 1) + match SetBoxAt(t, a, n - 1) case None => [] case Some(box) => [box]
  }

  /** The boxes in the order in which the client lists them. */
  function BoxList(t: Tenant, a: CheckArgs): seq<Box>
    requires Fits16(|a.valuesNum|)
  {
    [CountBox(t)] + RuleBoxes(t, |a.valuesNum|) + SetBoxes(t, a, |a.valuesStr|)
  }

  const MAX_BOXES := 8

  function Capped(boxes: seq<Box>): seq<Box> {
    if |boxes| <= MAX_BOXES then boxes else boxes[..MAX_BOXES]
  }

  /** The call as the contract sees it: only the first eight boxes can be referenced. */
  function CallFor(sha: Hash, org: Text, agent: Text, actionId: Text, ipfsHash: Text, a: CheckArgs): Call
    requires Sendable(org, agent, actionId, ipfsHash, a)
  {
    Call(true, set box | box in Capped(BoxList(Tenant(org, agent), a)) :: BoxName(sha, box))
  }

  /** The contract accepts the call, and `result` is its verdict. */
  ghost predicate Confirms(sha: Hash, c: Chain, org: Text, agent: Text, actionId: Text, ipfsHash: Text, a: CheckArgs,
                           result: PolicyCheckResult) {
    && Sendable(org, agent, actionId, ipfsHash, a)
    && var t, call := Tenant(org, agent), CallFor(sha, org, agent, actionId, ipfsHash, a);
       && Accepts(sha, c, call, t, Arrays(a))
       && var verdicts := Outcome(sha, c, call, t, Arrays(a)).value;
          result == PolicyCheckResult(Render(verdicts), AllPassed(verdicts))
  }

  /** The call that the client sends for a check. */
  function CheckCall(sha: Hash, org: Text, agent: Text, actionId: Text, ipfsHash: Text, a: CheckArgs): ContractCall
    requires Sendable(org, agent, actionId, ipfsHash, a)
  {
    CheckAndMintCall(CallFor(sha, org, agent, actionId, ipfsHash, a), Tenant(org, agent), Arrays(a))
  }

  /** The call can be sent, and the contract confirms it. */
  ghost predicate Confirmable(sha: Hash, c: Chain, org: Text, agent: Text, actionId: Text, ipfsHash: Text, a: CheckArgs) {
    Sendable(org, agent, actionId, ipfsHash, a) && Confirmed(sha, c, CheckCall(sha, org, agent, actionId, ipfsHash, a))
  }

  /** That call was confirmed and led from `c` to `d`. */
  ghost predicate Took(sha: Hash, c: Chain, d: Chain, org: Text, agent: Text, actionId: Text, ipfsHash: Text, a: CheckArgs) {
    && Sendable(org, agent, actionId, ipfsHash, a)
    && Confirmed(sha, c, CheckCall(sha, org, agent, actionId, ipfsHash, a))
    && d == AfterCall(sha, c, CheckCall(sha, org, agent, actionId, ipfsHash, a))
  }

  predicate FieldsGiven(a: CheckArgs) {
    forall i :: 0 <= i < |a.valuesStr| && a.valuesStr[i] != [] ==> i < |a.fields| && Fits16(|a.fields[i]|)
  }

  method ListBoxes(t: Tenant, a: CheckArgs) returns (r: Result<seq<Box>, ClientError>)
    requires Fits16(|a.valuesNum|) && forall i :: 0 <= i < |a.valuesStr| ==> Fits16(|a.valuesStr[i]|)
    ensures r.Success? <==> FieldsGiven(a)
    ensures r.Success? ==> r.value == BoxList(t, a)
  {
    var boxes := [CountBox(t)];
    for i := 0 to |a.valuesNum|
      invariant boxes == [CountBox(t)] + RuleBoxes(t, i)
    {
      boxes := boxes + [RuleBox(t, i)];
    }
    ghost var fixed := boxes;
    for i := 0 to |a.valuesStr|
      invariant forall j :: 0 <= j < i && a.valuesStr[j] != [] ==> j < |a.fields| && Fits16(|a.fields[j]|)
      invariant boxes == fixed + SetBoxes(t, a, i)
    {
      if a.valuesStr[i] != [] {
        if i >= |a.fields| {
          return Failure(FieldMissing);
        }
        if !Fits16(|a.fields[i]|) {
          return Failure(CannotEncode);
        }
        boxes := boxes + [SetBox(t, a.fields[i], a.valuesStr[i])];
      }
    }
    r := Success(boxes);
  }

  /** Encodes the arguments and lists the boxes; the result is what the contract decodes from them. */
  method EncodeCall(sha: Hash, org: Text, agent: Text, actionId: Text, ipfsHash: Text, a: CheckArgs)
    returns (r: Result<(Call, CheckArrays), ClientError>)
    ensures r.Success? <==> Sendable(org, agent, actionId, ipfsHash, a)
    ensures r.Success? ==> r.value == (CallFor(sha, org, agent, actionId, ipfsHash, a), Arrays(a))
  {
    if !(Fits16(|org|) && Fits16(|agent|) && Fits16(|actionId|) && Fits16(|ipfsHash|)) {
      return Failure(CannotEncode);
    }
    var nums := EncodeArrayUint64(a.valuesNum);
    var strs := EncodeArrayString(a.valuesStr);
    var bools := EncodeArrayBool(a.attested);
    if nums.Failure? || strs.Failure? || bools.Failure? {
      return Failure(CannotEncode);
    }
    var boxes := ListBoxes(Tenant(org, agent), a);
    if boxes.Failure? {
      return Failure(boxes.error);
    }
    var call := Call(true, set box | box in Capped(boxes.value) :: BoxName(sha, box));
    r := Success((call, CheckArrays(DecodeUint64Array(nums.value).value, DecodeStringArray(strs.value).value,
                                    DecodeBoolArray(bools.value).value)));
  }

  /** The client's reading of the log. */
  function ReadResult(log: Option<Bytes>, ruleCount: nat): PolicyCheckResult {
    var policyResult := ResultFromLog(log, ruleCount);
    PolicyCheckResult(policyResult, AsaMinted(policyResult))
  }

  lemma ReadBack(verdicts: seq<Verdict>, ruleCount: nat)
    requires verdicts != [] && Fits16(|Render(verdicts)|)
    ensures ReadResult(Some(RETURN_PREFIX + StringBytes(Render(verdicts))), ruleCount)
         == PolicyCheckResult(Render(verdicts), AllPassed(verdicts))
  {
    ResultRoundTrip(verdicts, RETURN_PREFIX, ruleCount);
  }

  method SubmitPolicyCheck(contract: PolicyContract, org: Text, agent: Text, actionId: Text, ipfsHash: Text,
                           a: CheckArgs, net: Network)
    returns (r: Result<PolicyCheckResult, ClientError>)
    modifies contract
    ensures r.Success? <==>
      && net.Delivered? && Sendable(org, agent, actionId, ipfsHash, a)
      && Accepts(contract.sha, old(contract.State()),
                 CallFor(contract.sha, org, agent, actionId, ipfsHash, a), Tenant(org, agent), Arrays(a))
    ensures r.Success? ==>
      && Confirms(contract.sha, old(contract.State()), org, agent, actionId, ipfsHash, a, r.value)
      && contract.State() == if r.value.asaMinted
           then Apply(contract.sha, old(contract.State()), Receipt(Tenant(org, agent))) else old(contract.State())
    ensures r.Success? ==>
      Took(contract.sha, old(contract.State()), contract.State(), org, agent, actionId, ipfsHash, a)
    ensures r.Failure? && contract.State() != old(contract.State()) ==>
      net.Unconfirmed? && Took(contract.sha, old(contract.State()), contract.State(), org, agent, actionId, ipfsHash, a)
    ensures r.Success? ==> contract.receipts == old(contract.receipts) - if r.value.asaMinted then 1 else 0
    ensures r.Failure? ==> old(contract.receipts) - 1 <= contract.receipts <= old(contract.receipts)
  {
    var encoded := EncodeCall(contract.sha, org, agent, actionId, ipfsHash, a);
    if encoded.Failure? {
      return Failure(encoded.error);
    }
    if net.Dropped? {
      return Failure(NoConfirmation);
    }
    var (call, args) := encoded.value;
    var t := Tenant(org, agent);
    ghost var verdicts := Outcome(contract.sha, contract.State(), call, t, args);
    var result := contract.CheckAndMint(call, t, actionId, ipfsHash, args);
    if result.Failure? {
      return Failure(Rejected(result.error));
    }
    if net.Unconfirmed? {
      return Failure(NoConfirmation);
    }
    ReadBack(verdicts.value, |a.valuesNum|);
    r := Success(ReadResult(Some(RETURN_PREFIX + StringBytes(result.value)), |a.valuesNum|));
  }

  // ----- Box coverage -----

  /** The number of set boxes that the client lists. */
  function NonEmpty(values: seq<Text>): nat {
    if values == [] then 0
    else NonEmpty(values[..|values| - 1]) + if values[|values| - 1] == [] then 0 else 1
  }

  lemma {:induction false} SetBoxesSize(t: Tenant, a: CheckArgs, n: nat)
    requires n <= |a.valuesStr|
    ensures |SetBoxes(t, a, n)| <= NonEmpty(a.valuesStr[..n])
  {
    if n > 0 {
      SetBoxesSize(t, a, n - 1);
      assert a.valuesStr[..n][..n - 1] == a.valuesStr[..n - 1];
    }
  }

  lemma {:induction false} SetBoxListed(t: Tenant, a: CheckArgs, n: nat, i: nat)
    requires i < n && SetBoxAt(t, a, i).Some?
    ensures SetBoxAt(t, a, i).value in SetBoxes(t, a, n)
  {
    if i < n - 1 {
      SetBoxListed(t, a, n - 1, i);
    }
  }

  /** Without a cut, every listed box is referenced by the call. */
  lemma ListedIsReferenced(sha: Hash, org: Text, agent: Text, actionId: Text, ipfsHash: Text, a: CheckArgs, box: Box)
    requires Sendable(org, agent, actionId, ipfsHash, a)
    requires 1 + |a.valuesNum| + NonEmpty(a.valuesStr) <= MAX_BOXES
    requires box in BoxList(Tenant(org, agent), a)
    ensures BoxName(sha, box) in CallFor(sha, org, agent, actionId, ipfsHash, a).boxes
  {
    var t := Tenant(org, agent);
    SetBoxesSize(t, a, |a.valuesStr|);
    assert a.valuesStr[..|a.valuesStr|] == a.valuesStr;
    assert Capped(BoxList(t, a)) == BoxList(t, a);
  }

  /**
   Box coverage: when the arrays follow the stored rules, every value of a set rule is non-empty
   and the list is not cut off, the contract finds every box it reads, so every rule gets a verdict.
   */
  lemma BoxCoverage(sha: Hash, c: Chain, org: Text, agent: Text, actionId: Text, ipfsHash: Text, a: CheckArgs)
    requires Sendable(org, agent, actionId, ipfsHash, a)
    requires var n := RuleCount(sha, c, Tenant(org, agent)); n > 0 && Aligned(Arrays(a), n) && |a.fields| == n
    requires 1 + |a.valuesNum| + NonEmpty(a.valuesStr) <= MAX_BOXES
    requires forall i :: 0 <= i < |a.valuesNum| ==>
      var rule := RuleAt(sha, c, Tenant(org, agent), i);
      rule.Some? && rule.value.field == a.fields[i] && (ReadsSet(rule.value) ==> a.valuesStr[i] != [])
    ensures Outcome(sha, c, CallFor(sha, org, agent, actionId, ipfsHash, a), Tenant(org, agent), Arrays(a)).Some?
  {
    var t, call, args := Tenant(org, agent), CallFor(sha, org, agent, actionId, ipfsHash, a), Arrays(a);
    var boxes := BoxList(t, a);
    assert boxes[0] == CountBox(t);
    ListedIsReferenced(sha, org, agent, actionId, ipfsHash, a, CountBox(t));
    forall i | 0 <= i < |a.valuesNum|
      ensures VerdictAt(sha, c, call, t, args, i).Some?
    {
      RuleCoverage(sha, c, org, agent, actionId, ipfsHash, a, i);
    }
  }

  lemma RuleCoverage(sha: Hash, c: Chain, org: Text, agent: Text, actionId: Text, ipfsHash: Text, a: CheckArgs, i: nat)
    requires Sendable(org, agent, actionId, ipfsHash, a)
    requires Aligned(Arrays(a), |a.valuesNum|) && |a.fields| == |a.valuesNum| && i < |a.valuesNum|
    requires 1 + |a.valuesNum| + NonEmpty(a.valuesStr) <= MAX_BOXES
    requires
      var rule := RuleAt(sha, c, Tenant(org, agent), i);
      rule.Some? && rule.value.field == a.fields[i] && (ReadsSet(rule.value) ==> a.valuesStr[i] != [])
    ensures VerdictAt(sha, c, CallFor(sha, org, agent, actionId, ipfsHash, a), Tenant(org, agent), Arrays(a), i).Some?
  {
    var t := Tenant(org, agent);
    assert BoxList(t, a)[1 + i] == RuleBox(t, i);
    ListedIsReferenced(sha, org, agent, actionId, ipfsHash, a, RuleBox(t, i));
    var rule := RuleAt(sha, c, t, i).value;
    if ReadsSet(rule) {
      SetBoxListed(t, a, |a.valuesStr|, i);
      ListedIsReferenced(sha, org, agent, actionId, ipfsHash, a, SetBox(t, rule.field, a.valuesStr[i]));
    }
  }

  // ----- What the call does not reference -----

  /** A box that is not among the first eight listed is not referenced, or it has the name of one that is. */
  lemma UnlistedIsUnreferenced(sha: Hash, org: Text, agent: Text, actionId: Text, ipfsHash: Text, a: CheckArgs, box: Box)
    returns (listed: Box)
    requires Sendable(org, agent, actionId, ipfsHash, a)
    requires box !in Capped(BoxList(Tenant(org, agent), a))
    ensures BoxName(sha, box) !in CallFor(sha, org, agent, actionId, ipfsHash, a).boxes
      || (listed in BoxList(Tenant(org, agent), a) && Collide(sha, Preimage(listed), Preimage(box)))
  {
    listed := box;
    var boxes := Capped(BoxList(Tenant(org, agent), a));
    if BoxName(sha, box) in CallFor(sha, org, agent, actionId, ipfsHash, a).boxes {
      listed :| listed in boxes && BoxName(sha, listed) == BoxName(sha, box);
      NamesDistinct(sha, listed, box);
    }
  }

  /** A confirmed check has as many entries as there are rules, and references the box of each rule and the set box it reads. */
  lemma AcceptedReferences(sha: Hash, c: Chain, call: Call, t: Tenant, args: CheckArrays, i: nat)
    requires Accepts(sha, c, call, t, args) && i < |args.nums|
    ensures Aligned(args, RuleCount(sha, c, t)) && Fits64(i) && RuleAt(sha, c, t, i).Some?
    ensures BoxName(sha, RuleBox(t, i)) in call.boxes
    ensures
      var rule := RuleAt(sha, c, t, i).value;
      ReadsSet(rule) ==> BoxName(sha, SetBox(t, rule.field, args.strs[i])) in call.boxes
  {
    assert VerdictAt(sha, c, call, t, args, i).Some?;
  }

  lemma EighthIsCut(t: Tenant, a: CheckArgs)
    requires Fits16(|a.valuesNum|)
    ensures RuleBox(t, 7) !in Capped(BoxList(t, a))
  {
    var boxes := BoxList(t, a);
    forall k | 0 <= k < |Capped(boxes)|
      ensures Capped(boxes)[k] != RuleBox(t, 7)
    {
      if 0 < k <= |a.valuesNum| {
        assert boxes[k] == RuleBox(t, k - 1);
      } else if k > 0 {
        assert boxes[k] in SetBoxes(t, a, |a.valuesStr|);
        SetBoxNotEmpty(t, a, |a.valuesStr|, boxes[k]);
      }
    }
  }

  /** With more than seven rules the box of the eighth is cut off, so every check is refused, or two boxes collide. */
  lemma TooManyRules(sha: Hash, c: Chain, org: Text, agent: Text, actionId: Text, ipfsHash: Text, a: CheckArgs)
    returns (listed: Box)
    requires Sendable(org, agent, actionId, ipfsHash, a) && RuleCount(sha, c, Tenant(org, agent)) > 7
    ensures !Accepts(sha, c, CallFor(sha, org, agent, actionId, ipfsHash, a), Tenant(org, agent), Arrays(a))
      || Collide(sha, Preimage(listed), Preimage(RuleBox(Tenant(org, agent), 7)))
  {
    var t := Tenant(org, agent);
    EighthIsCut(t, a);
    listed := UnlistedIsUnreferenced(sha, org, agent, actionId, ipfsHash, a, RuleBox(t, 7));
    if Accepts(sha, c, CallFor(sha, org, agent, actionId, ipfsHash, a), t, Arrays(a)) {
      AcceptedReferences(sha, c, CallFor(sha, org, agent, actionId, ipfsHash, a), t, Arrays(a), 7);
    }
  }

  lemma EmptyTextIsNotListed(t: Tenant, a: CheckArgs, field: ArcString)
    requires Fits16(|a.valuesNum|)
    ensures SetBox(t, field, []) !in BoxList(t, a)
  {
    if SetBox(t, field, []) in SetBoxes(t, a, |a.valuesStr|) {
      SetBoxNotEmpty(t, a, |a.valuesStr|, SetBox(t, field, []));
    }
  }

  /** A public set rule that gets the empty text has no box listed, so the check is refused, or two boxes collide. */
  lemma EmptyTextRefuses(sha: Hash, c: Chain, org: Text, agent: Text, actionId: Text, ipfsHash: Text, a: CheckArgs, i: nat)
    returns (listed: Box, read: Box)
    requires Sendable(org, agent, actionId, ipfsHash, a) && i < |a.valuesNum| && i < |a.valuesStr| && a.valuesStr[i] == []
    requires
      var rule := RuleAt(sha, c, Tenant(org, agent), i);
      rule.Some? && rule.value.mode == 1 && (rule.value.operator == 7 || rule.value.operator == 8)
    ensures !Accepts(sha, c, CallFor(sha, org, agent, actionId, ipfsHash, a), Tenant(org, agent), Arrays(a))
      || Collide(sha, Preimage(listed), Preimage(read))
  {
    var t := Tenant(org, agent);
    read := SetBox(t, RuleAt(sha, c, t, i).value.field, []);
    EmptyTextIsNotListed(t, a, read.field);
    listed := UnlistedIsUnreferenced(sha, org, agent, actionId, ipfsHash, a, read);
    if Accepts(sha, c, CallFor(sha, org, agent, actionId, ipfsHash, a), t, Arrays(a)) {
      AcceptedReferences(sha, c, CallFor(sha, org, agent, actionId, ipfsHash, a), t, Arrays(a), i);
    }
  }

  lemma {:induction false} SetBoxNotEmpty(t: Tenant, a: CheckArgs, n: nat, box: Box)
    requires box in SetBoxes(t, a, n)
    ensures box.SetBox? && box.value != []
  {
    if box in SetBoxes(t, a, n - 1) {
      SetBoxNotEmpty(t, a, n - 1, box);
    }
  }
}
