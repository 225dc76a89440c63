/**
 Provisioning and evaluation of policies, as in tenancy/provisioning.py: each rule is written to
 the contract and mirrored in the tenant store; private rules are evaluated off-chain and
 rechecked by an auditor.
 */
module Provisioning {
  import opened Basics
  import opened Arc4
  import opened BoxKeys
  import opened PolicyContracts
  import opened TenantStores
  import opened ContractClient

  // ----- Decision fields and private policy documents -----

  /** A field of a decision: `str(value)`, and `int(value)` where that conversion exists. */
  datatype FieldValue = FieldValue(asText: Text, asInt: Option<int>)

  type Fields = map<Text, FieldValue>

  /** A private policy; the members of a set are kept sorted, so only their multiset matters. */
  datatype PolicyDoc =
    | NumericDoc(field: Text, operator: int, valueNum: int)
    | SetDoc(field: Text, operator: int, members: multiset<Text>)

  /** Library code that the backend relies on: SHA-256, canonical JSON and AES-GCM. */
  datatype Crypto = Crypto(
    sha: Hash,
    canonical: PolicyDoc -> Bytes,
    encrypt: (Bytes, Bytes, PolicyDoc) -> Bytes,
    decrypt: (Bytes, Bytes) -> Option<PolicyDoc>)

  /** Under the key it was encrypted with, an envelope decrypts to its document; no envelope is the empty text. */
  ghost predicate Authentic(crypto: Crypto) {
    forall key, nonce, doc ::
      crypto.encrypt(key, nonce, doc) != [] && crypto.decrypt(key, crypto.encrypt(key, nonce, doc)) == Some(doc)
  }

  function PolicyCommitment(crypto: Crypto, doc: PolicyDoc): Digest {
    crypto.sha(crypto.canonical(doc))
  }

  /** Off-chain comparison: an unknown operator code never holds. */
  predicate EvalNumeric(operator: int, lhs: int, rhs: int) {
    OP_LT <= operator <= OP_NE && Compare(operator, lhs, rhs)
  }

  /** The private check of a field value; None stands for an exception. */
  function EvalDoc(doc: PolicyDoc, value: FieldValue): Option<bool> {
    if IsSetOperator(doc.operator) then
      var inSet := doc.SetDoc? && value.asText in doc.members;
      Some(inSet == (doc.operator == OP_IN))
    else if value.asInt.None? || doc.SetDoc? then None
    else Some(EvalNumeric(doc.operator, value.asInt.value, doc.valueNum))
  }

  /** What the private check means, by the operator codes of the documents. */
  lemma EvalDocMeans(doc: PolicyDoc, value: FieldValue)
    ensures doc.operator == 7 || doc.operator == 8 ==>
      var member := doc.SetDoc? && value.asText in doc.members;
      EvalDoc(doc, value) == Some(if doc.operator == 7 then member else !member)
    ensures doc.operator != 7 && doc.operator != 8 && (value.asInt.None? || doc.SetDoc?) ==> EvalDoc(doc, value) == None
    ensures doc.NumericDoc? && doc.operator != 7 && doc.operator != 8 && value.asInt.Some? ==>
      var n, holds := value.asInt.value, EvalDoc(doc, value);
      && holds.Some?
      && (doc.operator == 1 ==> (holds.value <==> n < doc.valueNum))
      && (doc.operator == 2 ==> (holds.value <==> n <= doc.valueNum))
      && (doc.operator == 3 ==> (holds.value <==> n > doc.valueNum))
      && (doc.operator == 4 ==> (holds.value <==> n >= doc.valueNum))
      && (doc.operator == 5 ==> (holds.value <==> n == doc.valueNum))
      && (doc.operator == 6 ==> (holds.value <==> n != doc.valueNum))
      && (!(1 <= doc.operator <= 6) ==> !holds.value)
  {
  }

  // ----- Registration -----

  datatype ProvisionError = UnknownOrg | NotASetOperator | ChainFailure(cause: ClientError)

  /** The private form of a rule: on-chain and in the mirror only the field and the commitment are in the clear. */
  function PrivateRow(crypto: Crypto, key: Bytes, nonce: Bytes, doc: PolicyDoc): RuleRow {
    RuleRow(MODE_ATTESTED, 0, 0, doc.field, PolicyCommitment(crypto, doc), crypto.encrypt(key, nonce, doc))
  }

  function PublicRow(operator: int, valueNum: int, field: Text): RuleRow {
    RuleRow(MODE_ONCHAIN, operator, valueNum, field, [], [])
  }

  predicate RowEncodable(org: Text, agent: Text, row: RuleRow) {
    RuleEncodable(org, agent, row.mode, row.operator, row.valueNum, row.field, row.commitment)
  }

  /** The on-chain rule that a stored row mirrors. */
  function MirroredRule(row: RuleRow): PolicyRule
    requires RowEncodable([], [], row)
  {
    PolicyRule(row.mode, row.operator, row.valueNum, row.field, row.commitment)
  }

  predicate ValuesFit(values: seq<Text>) {
    forall i :: 0 <= i < |values| ==> Fits16(|values[i]|)
  }

  /** The boxes after adding the values one by one to the set of a field. */
  function Seeded(sha: Hash, c: Chain, t: Tenant, field: ArcString, values: seq<Text>): Chain
    requires ValuesFit(values)
  {
    if values == [] then c
    else
      var n := |values| - 1;
      Apply(sha, Seeded(sha, c, t, field, values[..n]), AddValue(t, field, values[n]))
  }

  lemma SeededNext(sha: Hash, c: Chain, t: Tenant, field: ArcString, values: seq<Text>, i: nat)
    requires i < |values| && ValuesFit(values[..i]) && Fits16(|values[i]|)
    ensures ValuesFit(values[..i + 1])
    ensures Seeded(sha, c, t, field, values[..i + 1]) ==
      Apply(sha, Seeded(sha, c, t, field, values[..i]), AddValue(t, field, values[i]))
  {
    var more := values[..i + 1];
    assert more[..i] == values[..i] && more[i] == values[i];
  }

  /** How far a registration got: nothing was written, only the rule box, or also the mirror and some of the values. */
  datatype Progress = Untouched | OnlyOnChain | Stored(seeded: nat)

  predicate Registrable(sha: Hash, c: Chain, org: Text, agent: Text, row: RuleRow) {
    RowEncodable(org, agent, row) && RuleCount(sha, c, Tenant(org, agent)) + 1 < 0x1_0000_0000_0000_0000
  }

  /** The rule behind those that the tenant has on-chain. */
  function Appended(sha: Hash, c: Chain, org: Text, agent: Text, row: RuleRow): Chain
    requires RowEncodable(org, agent, row)
  {
    Apply(sha, c, Register(Tenant(org, agent), MirroredRule(row)))
  }

  /** The mirrored row under the index that the contract assigned. */
  function Mirrored(sha: Hash, c: Chain, tables: Tables, org: Text, agent: Text, row: RuleRow): Tables
    requires RowEncodable(org, agent, row)
  {
    tables.(rules := tables.rules[(org, agent, RuleCount(sha, c, Tenant(org, agent))) := row])
  }

  /** The chain and the tables when the registration of `row` with the set `values` got as far as `p`. */
  ghost predicate Reached(sha: Hash, c: Chain, tables: Tables, org: Text, agent: Text, row: RuleRow, values: seq<Text>,
                          p: Progress, c': Chain, tables': Tables) {
    match p
    case Untouched => c' == c && tables' == tables
    case OnlyOnChain =>
      && Registrable(sha, c, org, agent, row)
      && c' == Appended(sha, c, org, agent, row) && tables' == tables
    case Stored(n) =>
      && Registrable(sha, c, org, agent, row) && n <= |values| && ValuesFit(values[..n])
      && c' == Seeded(sha, Appended(sha, c, org, agent, row), Tenant(org, agent), row.field, values[..n])
      && tables' == Mirrored(sha, c, tables, org, agent, row)
  }

  lemma {:induction false} SeededCount(sha: Hash, c: Chain, t: Tenant, field: ArcString, values: seq<Text>)
    requires ValuesFit(values)
    ensures RuleCount(sha, Seeded(sha, c, t, field, values), t) == RuleCount(sha, c, t)
  {
    if values != [] {
      SeededCount(sha, c, t, field, values[..|values| - 1]);
    }
  }

  /** A stored registration is the tenant's next rule. */
  lemma StoredCount(sha: Hash, c: Chain, tables: Tables, org: Text, agent: Text, row: RuleRow, values: seq<Text>,
                    p: Progress, c': Chain, tables': Tables)
    requires p.Stored? && Reached(sha, c, tables, org, agent, row, values, p, c', tables')
    ensures RuleCount(sha, c', Tenant(org, agent)) == RuleCount(sha, c, Tenant(org, agent)) + 1
  {
    SeededCount(sha, Appended(sha, c, org, agent, row), Tenant(org, agent), row.field, values[..p.seeded]);
  }

  /** Writes a rule on-chain and then mirrors it in the store. */
  method RegisterRow(store: TenantStore, contract: PolicyContract, org: Text, agent: Text, row: RuleRow,
                     countRead: bool, net: Network)
    returns (r: Result<nat, ProvisionError>, ghost p: Progress)
    modifies store, contract
    ensures Reached(contract.sha, old(contract.State()), old(store.State()), org, agent, row, [], p,
                    contract.State(), store.State())
    ensures r.Success? <==> p == Stored(0)
    ensures r.Success? ==> r.value == RuleCount(contract.sha, old(contract.State()), Tenant(org, agent))
    ensures net.Delivered? && countRead && Registrable(contract.sha, old(contract.State()), org, agent, row) ==> r.Success?
  {
    var idx := ContractClient.RegisterRule(contract, org, agent, row.mode, row.operator, row.valueNum,
                                           row.field, row.commitment, countRead, net);
    if idx.Failure? {
      p := if contract.State() == old(contract.State()) then Untouched else OnlyOnChain;
      r := Failure(ChainFailure(idx.error));
      return;
    }
    store.AddRule(org, agent, idx.value, row);
    r, p := Success(idx.value), Stored(0);
  }

  /** What an appended rule leaves on-chain: the rule at the tenant's count, and the sets as they were. */
  lemma AppendedRule(sha: Hash, c: Chain, org: Text, agent: Text, row: RuleRow)
    requires Registrable(sha, c, org, agent, row)
    ensures RuleAt(sha, Appended(sha, c, org, agent, row), Tenant(org, agent), RuleCount(sha, c, Tenant(org, agent)))
         == Some(MirroredRule(row))
    ensures Appended(sha, c, org, agent, row).sets == c.sets
  {
  }

  /**
   A private policy does not show: two documents on one field with the same commitment lead, however
   far their registrations got, to the same chain, and to stored rows that differ at most in the
   envelope.
   */
  lemma NothingShows(crypto: Crypto, sha: Hash, c: Chain, tables: Tables, org: Text, agent: Text, key: Bytes,
                     doc: PolicyDoc, nonce: Bytes, doc': PolicyDoc, nonce': Bytes, p: Progress,
                     d: Chain, u: Tables, d': Chain, u': Tables)
    requires doc.field == doc'.field && crypto.sha(crypto.canonical(doc)) == crypto.sha(crypto.canonical(doc'))
    requires Reached(sha, c, tables, org, agent, PrivateRow(crypto, key, nonce, doc), [], p, d, u)
    requires Reached(sha, c, tables, org, agent, PrivateRow(crypto, key, nonce', doc'), [], p, d', u')
    ensures d == d' && u.orgs == u'.orgs && u.agents == u'.agents && u.rules.Keys == u'.rules.Keys
    ensures forall k :: k in u.rules ==> u.rules[k].(docCipher := []) == u'.rules[k].(docCipher := [])
  {
  }

  /** A private policy of either kind: encrypts the document, then registers its commitment. */
  method RegisterPrivate(crypto: Crypto, store: TenantStore, contract: PolicyContract, org: Text, agent: Text,
                         doc: PolicyDoc, nonce: Bytes, countRead: bool, net: Network)
    returns (r: Result<nat, ProvisionError>, ghost p: Progress)
    modifies store, contract
    ensures Reached(contract.sha, old(contract.State()), old(store.State()), org, agent,
                    PrivateRow(crypto, OrgKey(old(store.orgs), org), nonce, doc), [], p, contract.State(), store.State())
    ensures contract.sets == old(contract.sets)
    ensures r.Success? ==> org in old(store.orgs) && Fits16(|org|) && Fits16(|agent|) && Fits16(|doc.field|)
    ensures r.Success? ==>
      var commitment := crypto.sha(crypto.canonical(doc));
      && RuleAt(contract.sha, contract.State(), Tenant(org, agent), r.value) == Some(PolicyRule(2, 0, 0, doc.field, commitment))
      && (org, agent, r.value) in store.rules
      && store.rules[(org, agent, r.value)]
           == RuleRow(2, 0, 0, doc.field, commitment, crypto.encrypt(old(store.orgs)[org].encKey, nonce, doc))
    ensures r.Success? <==> p == Stored(0)
    ensures r.Success? ==> r.value == RuleCount(contract.sha, old(contract.State()), Tenant(org, agent))
    ensures org !in old(store.orgs) ==> r == Failure(UnknownOrg)
    ensures
      && org in old(store.orgs) && net.Delivered? && countRead
      && Registrable(contract.sha, old(contract.State()), org, agent, PrivateRow(crypto, old(store.orgs)[org].encKey, nonce, doc))
      ==> r.Success?
  {
    if org !in store.orgs {
      r, p := Failure(UnknownOrg), Untouched;
      return;
    }
    var row := PrivateRow(crypto, store.orgs[org].encKey, nonce, doc);
    ghost var before := contract.State();
    r, p := RegisterRow(store, contract, org, agent, row, countRead, net);
    if !p.Untouched? {
      AppendedRule(contract.sha, before, org, agent, row);
    }
  }

  method RegisterSensitivePolicy(crypto: Crypto, store: TenantStore, contract: PolicyContract, org: Text, agent: Text,
                                 field: Text, operator: int, valueNum: int, nonce: Bytes, countRead: bool, net: Network)
    returns (r: Result<nat, ProvisionError>, ghost p: Progress)
    modifies store, contract
    ensures Reached(contract.sha, old(contract.State()), old(store.State()), org, agent,
                    PrivateRow(crypto, OrgKey(old(store.orgs), org), nonce, NumericDoc(field, operator, valueNum)), [], p,
                    contract.State(), store.State())
    ensures contract.sets == old(contract.sets)
    ensures r.Success? ==> org in old(store.orgs) && Fits16(|org|) && Fits16(|agent|) && Fits16(|field|)
    ensures r.Success? ==>
      var commitment := crypto.sha(crypto.canonical(NumericDoc(field, operator, valueNum)));
      && RuleAt(contract.sha, contract.State(), Tenant(org, agent), r.value) == Some(PolicyRule(2, 0, 0, field, commitment))
      && (org, agent, r.value) in store.rules
      && store.rules[(org, agent, r.value)]
           == RuleRow(2, 0, 0, field, commitment, crypto.encrypt(old(store.orgs)[org].encKey, nonce, NumericDoc(field, operator, valueNum)))
    ensures r.Success? <==> p == Stored(0)
    ensures r.Success? ==> r.value == RuleCount(contract.sha, old(contract.State()), Tenant(org, agent))
    ensures org !in old(store.orgs) ==> r == Failure(UnknownOrg)
    ensures
      && org in old(store.orgs) && net.Delivered? && countRead
      && Registrable(contract.sha, old(contract.State()), org, agent,
                     PrivateRow(crypto, old(store.orgs)[org].encKey, nonce, NumericDoc(field, operator, valueNum)))
      ==> r.Success?
  {
    r, p := RegisterPrivate(crypto, store, contract, org, agent, NumericDoc(field, operator, valueNum), nonce, countRead, net);
  }

  method RegisterSensitiveSetPolicy(crypto: Crypto, store: TenantStore, contract: PolicyContract, org: Text, agent: Text,
                                    field: Text, operator: int, members: seq<Text>, nonce: Bytes,
                                    countRead: bool, net: Network)
    returns (r: Result<nat, ProvisionError>, ghost p: Progress)
    modifies store, contract
    ensures Reached(contract.sha, old(contract.State()), old(store.State()), org, agent,
                    PrivateRow(crypto, OrgKey(old(store.orgs), org), nonce, SetDoc(field, operator, multiset(members))), [], p,
                    contract.State(), store.State())
    ensures contract.sets == old(contract.sets)
    ensures r.Success? ==> org in old(store.orgs) && Fits16(|org|) && Fits16(|agent|) && Fits16(|field|)
    ensures r.Success? ==>
      var commitment := crypto.sha(crypto.canonical(SetDoc(field, operator, multiset(members))));
      && RuleAt(contract.sha, contract.State(), Tenant(org, agent), r.value) == Some(PolicyRule(2, 0, 0, field, commitment))
      && (org, agent, r.value) in store.rules
      && store.rules[(org, agent, r.value)]
           == RuleRow(2, 0, 0, field, commitment, crypto.encrypt(old(store.orgs)[org].encKey, nonce, SetDoc(field, operator, multiset(members))))
    ensures r.Success? <==> p == Stored(0)
    ensures r.Success? ==> r.value == RuleCount(contract.sha, old(contract.State()), Tenant(org, agent))
    ensures !IsSetOperator(operator) ==> r == Failure(NotASetOperator)
    ensures IsSetOperator(operator) && org !in old(store.orgs) ==> r == Failure(UnknownOrg)
    ensures
      && IsSetOperator(operator) && org in old(store.orgs) && net.Delivered? && countRead
      && Registrable(contract.sha, old(contract.State()), org, agent,
                     PrivateRow(crypto, old(store.orgs)[org].encKey, nonce, SetDoc(field, operator, multiset(members))))
      ==> r.Success?
  {
    if !IsSetOperator(operator) {
      r, p := Failure(NotASetOperator), Untouched;
      return;
    }
    r, p := RegisterPrivate(crypto, store, contract, org, agent, SetDoc(field, operator, multiset(members)), nonce, countRead, net);
  }

  /** Adds the values one by one; `n` of them reached the chain. */
  method SeedSet(contract: PolicyContract, org: Text, agent: Text, field: Text, values: seq<Text>, nets: seq<Network>)
    returns (r: Result<(), ClientError>, ghost n: nat)
    requires |nets| == |values| && Fits16(|org|) && Fits16(|agent|) && Fits16(|field|)
    modifies contract
    ensures n <= |values| && ValuesFit(values[..n])
    ensures contract.State() == Seeded(contract.sha, old(contract.State()), Tenant(org, agent), field, values[..n])
    ensures r.Success? ==> n == |values|
    ensures ValuesFit(values) && (forall i :: 0 <= i < |nets| ==> nets[i].Delivered?) ==> r.Success?
  {
    n := 0;
    for i := 0 to |values|
      invariant n == i && ValuesFit(values[..i])
      invariant contract.State() == Seeded(contract.sha, old(contract.State()), Tenant(org, agent), field, values[..i])
    {
      ghost var before := contract.State();
      r := ContractClient.AddToSet(contract, org, agent, field, values[i], nets[i]);
      if Fits16(|values[i]|) {
        SeededNext(contract.sha, old(contract.State()), Tenant(org, agent), field, values, i);
      }
      n := if contract.State() == before then i else i + 1;
      if r.Failure? {
        return;
      }
      n := i + 1;
    }
    r := Success(());
  }

  /** The rule, its mirror, and the values of an in/not_in rule one by one. */
  method RegisterPolicy(store: TenantStore, contract: PolicyContract, org: Text, agent: Text,
                        field: Text, mode: int, operator: int, valueNum: int, commitment: Text, setValues: seq<Text>,
                        countRead: bool, net: Network, nets: seq<Network>)
    returns (r: Result<nat, ProvisionError>, ghost p: Progress)
    requires |nets| == |setValues|
    modifies store, contract
    ensures Reached(contract.sha, old(contract.State()), old(store.State()), org, agent,
                    RuleRow(mode, operator, valueNum, field, commitment, []),
                    if IsSetOperator(operator) then setValues else [], p, contract.State(), store.State())
    ensures r.Success? ==> p == Stored(if IsSetOperator(operator) then |setValues| else 0)
    ensures r.Success? ==> r.value == RuleCount(contract.sha, old(contract.State()), Tenant(org, agent))
    ensures org !in old(store.orgs) ==> r == Failure(UnknownOrg)
    ensures
      && org in old(store.orgs) && net.Delivered? && countRead && (forall i :: 0 <= i < |nets| ==> nets[i].Delivered?)
      && Registrable(contract.sha, old(contract.State()), org, agent, RuleRow(mode, operator, valueNum, field, commitment, []))
      && (IsSetOperator(operator) ==> ValuesFit(setValues))
      ==> r.Success?
  {
    if org !in store.orgs {
      r, p := Failure(UnknownOrg), Untouched;
      return;
    }
    var row := RuleRow(mode, operator, valueNum, field, commitment, []);
    r, p := RegisterRow(store, contract, org, agent, row, countRead, net);
    if r.Failure? || !IsSetOperator(operator) {
      return;
    }
    ghost var n;
    var seeded;
    seeded, n := SeedSet(contract, org, agent, field, setValues, nets);
    p := Stored(n);
    if seeded.Failure? {
      r := Failure(ChainFailure(seeded.error));
    }
  }

  // ----- Arguments of a check -----

  datatype EvalError = BadValue | Undecryptable

  datatype Slot = Slot(num: int, str: Text, attested: bool)

  /** The off-chain verdict of a private rule. */
  function EvaluateSensitive(crypto: Crypto, key: Bytes, row: RuleRow, fields: Fields): Result<bool, EvalError> {
    if row.field !in fields || row.docCipher == [] then Success(false)
    else
      match crypto.decrypt(key, row.docCipher)
      case None => Failure(Undecryptable)
      case Some(doc) =>
        match EvalDoc(doc, fields[row.field])
        case None => Failure(BadValue)
        case Some(b) => Success(b)
  }

  /** The entries that one stored rule contributes to the argument arrays. */
  function SlotFor(crypto: Crypto, key: Bytes, row: RuleRow, fields: Fields): Result<Slot, EvalError> {
    if row.mode == MODE_ATTESTED then
      var e := EvaluateSensitive(crypto, key, row, fields);
      if e.Failure? then Failure(e.error) else Success(Slot(0, [], e.value))
    else if IsSetOperator(row.operator) then
      Success(Slot(0, if row.field in fields then fields[row.field].asText else [], false))
    else if row.field !in fields then Success(Slot(0, [], false))
    else if fields[row.field].asInt.None? then Failure(BadValue)
    else Success(Slot(fields[row.field].asInt.value, [], false))
  }

  /** The arrays hold one slot for each rule, in the order of the listing. */
  ghost predicate ArgsFor(crypto: Crypto, key: Bytes, rows: seq<(nat, RuleRow)>, fields: Fields, a: CheckArgs) {
    && |a.valuesNum| == |a.valuesStr| == |a.attested| == |a.fields| == |rows|
    && forall i :: 0 <= i < |rows| ==>
         && a.fields[i] == rows[i].1.field
         && SlotFor(crypto, key, rows[i].1, fields) == Success(Slot(a.valuesNum[i], a.valuesStr[i], a.attested[i]))
  }

  /**
   What the entries of one rule mean.  A private rule attests the private check of its document, and
   false where the field is missing or nothing was encrypted; a public set rule gives the field's text,
   any other one its number, and a missing field counts as the empty text or zero.
   */
  predicate EntryMeans(crypto: Crypto, key: Bytes, row: RuleRow, fields: Fields, num: int, str: Text, attested: bool) {
    var given := row.field in fields;
    if row.mode == 2 then
      && num == 0 && str == []
      && (!given || row.docCipher == [] ==> !attested)
      && (given && row.docCipher != [] ==>
            var doc := crypto.decrypt(key, row.docCipher);
            doc.Some? && EvalDoc(doc.value, fields[row.field]) == Some(attested))
    else
      && !attested
      && if row.operator == 7 || row.operator == 8 then num == 0 && str == (if given then fields[row.field].asText else [])
         else str == [] && (if given then fields[row.field].asInt == Some(num) else num == 0)
  }

  lemma EntriesMean(crypto: Crypto, key: Bytes, rows: seq<(nat, RuleRow)>, fields: Fields, a: CheckArgs)
    requires ArgsFor(crypto, key, rows, fields, a)
    ensures forall i :: 0 <= i < |rows| ==>
      EntryMeans(crypto, key, rows[i].1, fields, a.valuesNum[i], a.valuesStr[i], a.attested[i])
  {
    forall i | 0 <= i < |rows|
      ensures EntryMeans(crypto, key, rows[i].1, fields, a.valuesNum[i], a.valuesStr[i], a.attested[i])
    {
      SlotMeans(crypto, key, rows[i].1, fields);
      assert SlotFor(crypto, key, rows[i].1, fields) == Success(Slot(a.valuesNum[i], a.valuesStr[i], a.attested[i]));
    }
  }

  lemma SlotMeans(crypto: Crypto, key: Bytes, row: RuleRow, fields: Fields)
    ensures
      var slot := SlotFor(crypto, key, row, fields);
      slot.Success? ==> EntryMeans(crypto, key, row, fields, slot.value.num, slot.value.str, slot.value.attested)
  {
  }

  /** The listing, the key and the fields determine the arrays, if there are any. */
  lemma ArgsUnique(crypto: Crypto, key: Bytes, rows: seq<(nat, RuleRow)>, fields: Fields, a: CheckArgs, b: CheckArgs)
    requires ArgsFor(crypto, key, rows, fields, a) && ArgsFor(crypto, key, rows, fields, b)
    ensures a == b
  {
    forall i | 0 <= i < |rows|
      ensures a.valuesNum[i] == b.valuesNum[i] && a.valuesStr[i] == b.valuesStr[i]
      ensures a.attested[i] == b.attested[i] && a.fields[i] == b.fields[i]
    {
      assert SlotFor(crypto, key, rows[i].1, fields) == Success(Slot(a.valuesNum[i], a.valuesStr[i], a.attested[i]));
    }
    assert a.valuesNum == b.valuesNum && a.valuesStr == b.valuesStr;
    assert a.attested == b.attested && a.fields == b.fields;
  }

  function OrgKey(orgs: map<Text, OrgRow>, org: Text): Bytes {
    if org in orgs then orgs[org].encKey else []
  }

  method BuildCheckArgs(crypto: Crypto, store: TenantStore, org: Text, agent: Text, fields: Fields)
    returns (r: Result<CheckArgs, EvalError>)
    ensures r.Success? ==> ArgsFor(crypto, OrgKey(store.orgs, org), Listing(store.State(), org, agent), fields, r.value)
    ensures r.Failure? ==>
      var rows := Listing(store.State(), org, agent);
      exists i :: 0 <= i < |rows| && SlotFor(crypto, OrgKey(store.orgs, org), rows[i].1, fields).Failure?
    ensures r.Success? ==>
      var a, rows := r.value, Listing(store.State(), org, agent);
      && |a.valuesNum| == |a.valuesStr| == |a.attested| == |a.fields| == |rows|
      && forall i :: 0 <= i < |rows| ==>
           EntryMeans(crypto, OrgKey(store.orgs, org), rows[i].1, fields, a.valuesNum[i], a.valuesStr[i], a.attested[i])
    ensures r.Success? ==>
      var a, rows := r.value, Listing(store.State(), org, agent);
      forall i :: 0 <= i < |rows| && rows[i].1.mode == 2 && (rows[i].1.field !in fields || rows[i].1.docCipher == []) ==>
        !a.attested[i]
  {
    var rules := store.GetRules(org, agent);
    var key := OrgKey(store.orgs, org);
    var a := CheckArgs([], [], [], []);
    for i := 0 to |rules|
      invariant |a.valuesNum| == |a.valuesStr| == |a.attested| == |a.fields| == i
      invariant forall j :: 0 <= j < i ==>
        && a.fields[j] == rules[j].1.field
        && SlotFor(crypto, key, rules[j].1, fields) == Success(Slot(a.valuesNum[j], a.valuesStr[j], a.attested[j]))
    {
      var row := rules[i].1;
      var slot := SlotFor(crypto, key, row, fields);
      if slot.Failure? {
        r := Failure(slot.error);
        return;
      }
      a := CheckArgs(a.valuesNum + [slot.value.num], a.valuesStr + [slot.value.str],
                     a.attested + [slot.value.attested], a.fields + [row.field]);
    }
    EntriesMean(crypto, key, rules, fields, a);
    r := Success(a);
  }

  // ----- The auditor's recheck -----

  datatype Recheck = Recheck(idx: nat, field: Text, commitmentMatches: bool, recheckPass: Option<bool>)

  /** The report on one private rule; it fails where evaluating the document raises. */
  function RecheckRow(crypto: Crypto, key: Bytes, idx: nat, row: RuleRow, fields: Fields): Result<Recheck, EvalError> {
    match crypto.decrypt(key, row.docCipher)
    case None => Success(Recheck(idx, row.field, false, None))
    case Some(doc) =>
      var matches := PolicyCommitment(crypto, doc) == row.commitment;
      if row.field !in fields then Success(Recheck(idx, row.field, matches, None))
      else
        match EvalDoc(doc, fields[row.field])
        case None => Failure(BadValue)
        case Some(b) => Success(Recheck(idx, row.field, matches, Some(b)))
  }

  predicate IsPrivate(row: RuleRow) {
    row.mode == MODE_ATTESTED && row.docCipher != []
  }

  /** The reports on the private rules among the first `n` of a listing, in order. */
  function Reports(crypto: Crypto, key: Bytes, rows: seq<(nat, RuleRow)>, fields: Fields, n: nat)
    : Result<seq<Recheck>, EvalError>
    requires n <= |rows|
  {
    if n == 0 then Success([])
    else
      var front := Reports(crypto, key, rows, fields, n - 1);
      if front.Failure? || !IsPrivate(rows[n - 1].1) then front
      else
        var entry := RecheckRow(crypto, key, rows[n - 1].0, rows[n - 1].1, fields);
        if entry.Failure? then Failure(entry.error) else Success(front.value + [entry.value])
  }

  method ReverifyMode2(crypto: Crypto, store: TenantStore, org: Text, agent: Text, fields: Fields, key: Bytes)
    returns (r: Result<seq<Recheck>, EvalError>)
    ensures r == Reports(crypto, key, Listing(store.State(), org, agent), fields, |Listing(store.State(), org, agent)|)
    ensures r.Success? ==> ReportsSay(crypto, key, Listing(store.State(), org, agent), fields, r.value)
  {
    var rules := store.GetRules(org, agent);
    var results: seq<Recheck> := [];
    for i := 0 to |rules|
      invariant Reports(crypto, key, rules, fields, i) == Success(results)
    {
      ReportsNext(crypto, key, rules, fields, i, results);
      if IsPrivate(rules[i].1) {
        var entry := RecheckRow(crypto, key, rules[i].0, rules[i].1, fields);
        if entry.Failure? {
          ReportsFail(crypto, key, rules, fields, i + 1, |rules|);
          r := Failure(entry.error);
          return;
        }
        results := results + [entry.value];
      }
    }
    AllReportsSay(crypto, key, rules, fields, results);
    r := Success(results);
  }

  /**
   What the report on a private rule says: the commitment matches exactly if the envelope decrypts to
   a document that hashes to it; there is a bit exactly if it decrypts and the field is present, and
   then it is the private check of that document.
   */
  predicate ReportSays(crypto: Crypto, key: Bytes, idx: nat, row: RuleRow, fields: Fields, rec: Recheck) {
    var doc := crypto.decrypt(key, row.docCipher);
    && rec.idx == idx && rec.field == row.field
    && (rec.commitmentMatches <==> doc.Some? && crypto.sha(crypto.canonical(doc.value)) == row.commitment)
    && (rec.recheckPass.Some? <==> doc.Some? && row.field in fields)
    && (rec.recheckPass.Some? ==> EvalDoc(doc.value, fields[row.field]) == rec.recheckPass)
  }

  /** Every private rule is reported on, and nothing else is. */
  ghost predicate ReportsSay(crypto: Crypto, key: Bytes, rows: seq<(nat, RuleRow)>, fields: Fields, reports: seq<Recheck>) {
    && (forall i :: 0 <= i < |rows| && rows[i].1.mode == 2 && rows[i].1.docCipher != [] ==>
          exists rec :: rec in reports && ReportSays(crypto, key, rows[i].0, rows[i].1, fields, rec))
    && (forall rec :: rec in reports ==>
          exists i :: 0 <= i < |rows| && rows[i].1.mode == 2 && rows[i].1.docCipher != []
            && ReportSays(crypto, key, rows[i].0, rows[i].1, fields, rec))
  }

  lemma RecheckSays(crypto: Crypto, key: Bytes, idx: nat, row: RuleRow, fields: Fields)
    ensures
      var rec := RecheckRow(crypto, key, idx, row, fields);
      rec.Success? ==> ReportSays(crypto, key, idx, row, fields, rec.value)
  {
  }

  lemma AllReportsSay(crypto: Crypto, key: Bytes, rows: seq<(nat, RuleRow)>, fields: Fields, reports: seq<Recheck>)
    requires Reports(crypto, key, rows, fields, |rows|) == Success(reports)
    ensures ReportsSay(crypto, key, rows, fields, reports)
  {
    forall i | 0 <= i < |rows| && rows[i].1.mode == 2 && rows[i].1.docCipher != []
      ensures exists rec :: rec in reports && ReportSays(crypto, key, rows[i].0, rows[i].1, fields, rec)
    {
      PrivateRowsSucceed(crypto, key, rows, fields, |rows|, i);
      var rec := RecheckRow(crypto, key, rows[i].0, rows[i].1, fields).value;
      ReportsAreComplete(crypto, key, rows, fields, |rows|, rec);
      RecheckSays(crypto, key, rows[i].0, rows[i].1, fields);
      assert rec in reports;
    }
    forall rec | rec in reports
      ensures exists i ::
        && 0 <= i < |rows| && rows[i].1.mode == 2 && rows[i].1.docCipher != []
        && ReportSays(crypto, key, rows[i].0, rows[i].1, fields, rec)
    {
      ReportsAreComplete(crypto, key, rows, fields, |rows|, rec);
      var i :| 0 <= i < |rows| && IsPrivate(rows[i].1)
        && RecheckRow(crypto, key, rows[i].0, rows[i].1, fields) == Success(rec);
      RecheckSays(crypto, key, rows[i].0, rows[i].1, fields);
    }
  }

  lemma {:induction false} PrivateRowsSucceed(crypto: Crypto, key: Bytes, rows: seq<(nat, RuleRow)>, fields: Fields,
                                              n: nat, i: nat)
    requires i < n <= |rows| && Reports(crypto, key, rows, fields, n).Success? && IsPrivate(rows[i].1)
    ensures RecheckRow(crypto, key, rows[i].0, rows[i].1, fields).Success?
  {
    if i < n - 1 {
      PrivateRowsSucceed(crypto, key, rows, fields, n - 1, i);
    }
  }

  /**
   Binding: an envelope with another document than the one committed to is reported as not matching,
   unless the two canonical forms shown here are the same or collide.
   */
  lemma SwappedDocumentIsReported(crypto: Crypto, key: Bytes, nonce: Bytes, doc: PolicyDoc, committed: PolicyDoc,
                                  idx: nat, row: RuleRow, fields: Fields, rec: Recheck)
    requires Authentic(crypto) && row.docCipher == crypto.encrypt(key, nonce, doc)
    requires row.commitment == crypto.sha(crypto.canonical(committed))
    requires RecheckRow(crypto, key, idx, row, fields) == Success(rec)
    ensures rec.commitmentMatches ==>
      crypto.canonical(doc) == crypto.canonical(committed)
      || Collide(crypto.sha, crypto.canonical(doc), crypto.canonical(committed))
  {
    RecheckSays(crypto, key, idx, row, fields);
    assert crypto.decrypt(key, crypto.encrypt(key, nonce, doc)) == Some(doc);
  }

  lemma ReportsNext(crypto: Crypto, key: Bytes, rows: seq<(nat, RuleRow)>, fields: Fields, n: nat, results: seq<Recheck>)
    requires n < |rows| && Reports(crypto, key, rows, fields, n) == Success(results)
    ensures !IsPrivate(rows[n].1) ==> Reports(crypto, key, rows, fields, n + 1) == Success(results)
    ensures IsPrivate(rows[n].1) ==>
      match RecheckRow(crypto, key, rows[n].0, rows[n].1, fields)
      case Success(entry) => Reports(crypto, key, rows, fields, n + 1) == Success(results + [entry])
      case Failure(error) => Reports(crypto, key, rows, fields, n + 1) == Failure(error)
  {
  }

  lemma {:induction false} ReportsFail(crypto: Crypto, key: Bytes, rows: seq<(nat, RuleRow)>, fields: Fields, m: nat, n: nat)
    requires m <= n <= |rows| && Reports(crypto, key, rows, fields, m).Failure?
    ensures Reports(crypto, key, rows, fields, n) == Reports(crypto, key, rows, fields, m)
  {
    if m < n {
      ReportsFail(crypto, key, rows, fields, m, n - 1);
    }
  }

  /** A successful recheck holds exactly the reports on the private rules. */
  lemma {:induction false} ReportsAreComplete(crypto: Crypto, key: Bytes, rows: seq<(nat, RuleRow)>, fields: Fields,
                                              n: nat, rec: Recheck)
    requires n <= |rows| && Reports(crypto, key, rows, fields, n).Success?
    ensures rec in Reports(crypto, key, rows, fields, n).value <==>
      exists i :: 0 <= i < n && IsPrivate(rows[i].1)
        && RecheckRow(crypto, key, rows[i].0, rows[i].1, fields) == Success(rec)
  {
    if n > 0 {
      ReportsAreComplete(crypto, key, rows, fields, n - 1, rec);
      var (idx, row) := rows[n - 1];
      if IsPrivate(row) && RecheckRow(crypto, key, idx, row, fields) == Success(rec) {
        assert rows[n - 1].0 == idx && rows[n - 1].1 == row;
      }
    }
  }

  /**
   Private-rule agreement: for a private rule in both listings whose field is present, the
   auditor's report under the organisation's key has a matching commitment and exactly the
   attested bit at the rule's index, however many rules were registered since.
   */
  lemma PrivateAgreement(crypto: Crypto, key: Bytes, nonce: Bytes, doc: PolicyDoc, i: nat, row: RuleRow,
                         rows: seq<(nat, RuleRow)>, fields: Fields, a: CheckArgs)
    requires Authentic(crypto) && row == PrivateRow(crypto, key, nonce, doc) && row.field in fields
    requires i < |rows| && rows[i] == (i, row) && ArgsFor(crypto, key, rows, fields, a)
    ensures IsPrivate(row)
    ensures RecheckRow(crypto, key, i, row, fields) == Success(Recheck(i, row.field, true, Some(a.attested[i])))
  {
    assert crypto.decrypt(key, crypto.encrypt(key, nonce, doc)) == Some(doc);
    assert SlotFor(crypto, key, rows[i].1, fields) == Success(Slot(a.valuesNum[i], a.valuesStr[i], a.attested[i]));
  }
}
