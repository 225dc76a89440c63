/**
 Onboarding as a state machine: any number of organisations are onboarded at once, the steps of
 their runs interleave, a run can fail and roll back, and the process can crash between the
 on-chain write of a rule and its mirroring in the tenant store.
 */
module Onboarding {
  import opened Basics
  import opened Arc4
  import opened BoxKeys
  import opened PolicyContracts
  import opened TenantIsolation
  import opened TenantStores
  import opened Provisioning

  /** One policy of an onboarding request. */
  datatype PolicySpec = PolicySpec(field: Text, operator: int, valueNum: int, setValues: seq<Text>, isPrivate: bool)

  function DocOf(spec: PolicySpec): PolicyDoc {
    if IsSetOperator(spec.operator) then SetDoc(spec.field, spec.operator, multiset(spec.setValues))
    else NumericDoc(spec.field, spec.operator, spec.valueNum)
  }

  function RowOf(crypto: Crypto, key: Bytes, nonce: Bytes, spec: PolicySpec): RuleRow {
    if spec.isPrivate then PrivateRow(crypto, key, nonce, DocOf(spec))
    else PublicRow(spec.operator, spec.valueNum, spec.field)
  }

  ghost predicate IsRowOf(crypto: Crypto, key: Bytes, row: RuleRow, spec: PolicySpec) {
    exists nonce :: row == RowOf(crypto, key, nonce, spec)
  }

  /** A public set policy: its values go to an on-chain set. */
  predicate SeedsSet(spec: PolicySpec) {
    !spec.isPrivate && IsSetOperator(spec.operator)
  }

  /** The values written to the on-chain set of the rule's field. */
  function SeedValues(spec: PolicySpec): seq<Text> {
    if SeedsSet(spec) then spec.setValues else []
  }

  /** Everything about the policy that is written to the chain fits its encoding. */
  predicate SpecEncodable(crypto: Crypto, org: Text, agent: Text, key: Bytes, nonce: Bytes, spec: PolicySpec) {
    RowEncodable(org, agent, RowOf(crypto, key, nonce, spec)) && ValuesFit(SeedValues(spec))
  }

  /** Some public set rule among the first `n` lists `value` for `field`; rules on one field share one set. */
  predicate Declared(specs: seq<PolicySpec>, n: nat, field: Text, value: Text)
    requires n <= |specs|
  {
    exists i :: 0 <= i < n && specs[i].field == field && value in SeedValues(specs[i])
  }

  /** Where a run stands with its current rule. */
  datatype Phase = Ready | Registered(index: nat, row: RuleRow) | Seeding(seeded: nat)

  datatype Status = InFlight | Completed | Crashed

  datatype Run = Run(specs: seq<PolicySpec>, done: nat, phase: Phase, status: Status)

  function OnChain(run: Run): nat {
    run.done + if run.phase.Ready? then 0 else 1
  }

  function InStore(run: Run): nat {
    run.done + if run.phase.Seeding? then 1 else 0
  }

  /** The contract, the tenant store, the run of every live tenant, and the agent ids issued so far. */
  datatype World = World(chain: Chain, tables: Tables, runs: map<Tenant, Run>, issued: set<ArcString>)

  datatype Event =
    | Begin(tenant: Tenant, org: OrgRow, agentName: Text, specs: seq<PolicySpec>)
    | ChainWrite(tenant: Tenant, nonce: Bytes)
    | StoreWrite(tenant: Tenant)
    | Seed(tenant: Tenant)
    | Advance(tenant: Tenant)
    | Finish(tenant: Tenant)
    | Fail(tenant: Tenant)
    | Crash
    | Audit(tenant: Tenant)

  predicate InFlightRun(w: World, t: Tenant) {
    t in w.runs && w.runs[t].status.InFlight? && w.runs[t].done <= |w.runs[t].specs|
    && (!w.runs[t].phase.Ready? ==> w.runs[t].done < |w.runs[t].specs|)
  }

  function NewRow(crypto: Crypto, w: World, t: Tenant, nonce: Bytes): RuleRow
    requires t.org in w.tables.orgs && InFlightRun(w, t) && w.runs[t].done < |w.runs[t].specs|
  {
    RowOf(crypto, w.tables.orgs[t.org].encKey, nonce, w.runs[t].specs[w.runs[t].done])
  }

  predicate Enabled(crypto: Crypto, w: World, e: Event) {
    match e
    case Begin(t, org, _, specs) =>
      && t.org !in w.tables.orgs && t.agent !in w.issued
      && forall o :: o in w.tables.orgs ==> w.tables.orgs[o].apiKeyHash != org.apiKeyHash
    case ChainWrite(t, nonce) =>
      && InFlightRun(w, t) && w.runs[t].phase.Ready? && w.runs[t].done < |w.runs[t].specs|
      && t.org in w.tables.orgs && RowEncodable(t.org, t.agent, NewRow(crypto, w, t, nonce))
      && RuleCount(crypto.sha, w.chain, t) + 1 < 0x1_0000_0000_0000_0000
    case StoreWrite(t) => InFlightRun(w, t) && w.runs[t].phase.Registered?
    case Seed(t) =>
      && InFlightRun(w, t) && w.runs[t].phase.Seeding?
      && var run := w.runs[t];
         var spec := run.specs[run.done];
         && run.phase.seeded < |SeedValues(spec)|
         && Fits16(|spec.field|) && Fits16(|SeedValues(spec)[run.phase.seeded]|)
    case Advance(t) =>
      && InFlightRun(w, t) && w.runs[t].phase.Seeding?
      && w.runs[t].phase.seeded == |SeedValues(w.runs[t].specs[w.runs[t].done])|
    case Finish(t) => InFlightRun(w, t) && w.runs[t].phase.Ready? && w.runs[t].done == |w.runs[t].specs|
    case Fail(t) => InFlightRun(w, t)
    case Crash => true
    case Audit(_) => true
  }

  /** The contract effect of an event, if it has one. */
  function EffectOf(crypto: Crypto, w: World, e: Event): Option<Effect>
    requires Enabled(crypto, w, e)
  {
    match e
    case ChainWrite(t, nonce) => Some(Register(t, MirroredRule(NewRow(crypto, w, t, nonce))))
    case Seed(t) =>
      var run := w.runs[t];
      var spec := run.specs[run.done];
      Some(AddValue(t, spec.field, SeedValues(spec)[run.phase.seeded]))
    case Audit(t) => Some(Receipt(t))
    case _ => None
  }

  /** The boxes whose names are computed in an event. */
  function Touched(crypto: Crypto, w: World, e: Event): set<Box>
    requires Enabled(crypto, w, e)
  {
    match EffectOf(crypto, w, e)
    case Some(effect) => Written(crypto.sha, w.chain, effect)
    case None => if e.Begin? then {CountBox(e.tenant)} else {}
  }

  function NextTables(tables: Tables, runs: map<Tenant, Run>, e: Event): Tables {
    match e
    case Begin(t, org, agentName, _) =>
      tables.(orgs := tables.orgs[t.org := org], agents := tables.agents[(t.org, t.agent) := agentName])
    case StoreWrite(t) =>
      if t in runs && runs[t].phase.Registered? then
        tables.(rules := tables.rules[(t.org, t.agent, runs[t].phase.index) := runs[t].phase.row])
      else tables
    case Fail(t) => WithoutOrg(tables, t.org)
    case _ => tables
  }

  function NextRuns(crypto: Crypto, w: World, e: Event): map<Tenant, Run>
    requires Enabled(crypto, w, e)
  {
    match e
    case Begin(t, _, _, specs) => w.runs[t := Run(specs, 0, Ready, InFlight)]
    case ChainWrite(t, nonce) =>
      w.runs[t := w.runs[t].(phase := Registered(RuleCount(crypto.sha, w.chain, t), NewRow(crypto, w, t, nonce)))]
    case StoreWrite(t) => w.runs[t := w.runs[t].(phase := Seeding(0))]
    case Seed(t) => w.runs[t := w.runs[t].(phase := Seeding(w.runs[t].phase.seeded + 1))]
    case Advance(t) => w.runs[t := w.runs[t].(done := w.runs[t].done + 1, phase := Ready)]
    case Finish(t) => w.runs[t := w.runs[t].(status := Completed)]
    case Fail(t) => w.runs - {t}
    case Crash => map t | t in w.runs :: if w.runs[t].status.InFlight? then w.runs[t].(status := Crashed) else w.runs[t]
    case Audit(_) => w.runs
  }

  function Next(crypto: Crypto, w: World, e: Event): World
    requires Enabled(crypto, w, e)
  {
    World(match EffectOf(crypto, w, e) case Some(effect) => Apply(crypto.sha, w.chain, effect) case None => w.chain,
          NextTables(w.tables, w.runs, e), NextRuns(crypto, w, e),
          if e.Begin? then w.issued + {e.tenant.agent} else w.issued)
  }

  // ----- The invariant -----

  /** Row `i` of the store realises policy `spec` and mirrors on-chain rule `i`. */
  ghost predicate MirrorAgrees(crypto: Crypto, c: Chain, tables: Tables, t: Tenant, i: nat, spec: PolicySpec) {
    && t.org in tables.orgs && (t.org, t.agent, i) in tables.rules
    && RowAgrees(crypto, c, tables.orgs[t.org].encKey, t, i, tables.rules[(t.org, t.agent, i)], spec)
  }

  ghost predicate RowAgrees(crypto: Crypto, c: Chain, key: Bytes, t: Tenant, i: nat, row: RuleRow, spec: PolicySpec) {
    && IsRowOf(crypto, key, row, spec)
    && RowEncodable(t.org, t.agent, row)
    && RuleAt(crypto.sha, c, t, i) == Some(MirroredRule(row))
  }

  ghost predicate RunProgress(run: Run) {
    && run.done <= |run.specs|
    && (!run.phase.Ready? ==> run.done < |run.specs|)
    && (run.phase.Seeding? ==> run.phase.seeded <= |SeedValues(run.specs[run.done])|)
    && (run.status.Completed? ==> run.phase.Ready? && run.done == |run.specs|)
  }

  /** What has been seeded so far of the on-chain set of `field`. */
  ghost predicate SeededSoFar(run: Run, field: Text, value: Text)
    requires RunProgress(run)
  {
    || Declared(run.specs, run.done, field, value)
    || (run.phase.Seeding? && run.specs[run.done].field == field
        && value in SeedValues(run.specs[run.done])[..run.phase.seeded])
  }

  /** The contract's boxes of a tenant hold what its run has written. */
  ghost predicate ChainPart(crypto: Crypto, boxes: iset<Box>, c: Chain, t: Tenant, run: Run) {
    && RunProgress(run)
    && CountBox(t) in boxes && RuleCount(crypto.sha, c, t) == OnChain(run)
    && (forall i: uint64 :: i < OnChain(run) ==> RuleBox(t, i) in boxes)
    && (forall field: ArcString, value: ArcString :: SetBox(t, field, value) in boxes ==>
          (InSet(crypto.sha, c, t, field, value) <==> SeededSoFar(run, field, value)))
  }

  /** The store mirrors the on-chain rules, except one that is still to be stored. */
  ghost predicate MirrorPart(crypto: Crypto, c: Chain, tables: Tables, t: Tenant, run: Run)
    requires RunProgress(run)
  {
    && t.org in tables.orgs && (t.org, t.agent) in tables.agents
    && HasPrefix(tables, t.org, t.agent, InStore(run))
    && (forall i :: 0 <= i < InStore(run) ==> MirrorAgrees(crypto, c, tables, t, i, run.specs[i]))
    && (run.phase.Registered? ==>
          && run.phase.index == run.done
          && RowAgrees(crypto, c, tables.orgs[t.org].encKey, t, run.done, run.phase.row, run.specs[run.done]))
  }

  ghost predicate TenantInv(crypto: Crypto, boxes: iset<Box>, w: World, t: Tenant) {
    && t in w.runs && t.agent in w.issued
    && ChainPart(crypto, boxes, w.chain, t, w.runs[t])
    && MirrorPart(crypto, w.chain, w.tables, t, w.runs[t])
  }

  /** The tables describe exactly the tenants with a run, one to an organisation. */
  ghost predicate TablesInv(w: World) {
    && (forall t, u :: t in w.runs && u in w.runs && t.org == u.org ==> t == u)
    && (forall t :: t in w.runs ==> t.org in w.tables.orgs)
    && (forall k :: k in w.tables.agents ==> k.0 in w.tables.orgs && exists t :: t in w.runs && (t.org, t.agent) == k)
    && (forall k :: k in w.tables.rules ==> (k.0, k.1) in w.tables.agents)
  }

  /** Nothing has been written for agent ids that were never issued. */
  ghost predicate FreshInv(crypto: Crypto, boxes: iset<Box>, w: World) {
    forall box :: box in boxes && !box.AnchorBox? && box.tenant.agent !in w.issued ==>
      ContentOf(crypto.sha, w.chain, box) == Absent
  }

  ghost predicate Inv(crypto: Crypto, boxes: iset<Box>, w: World) {
    && TablesInv(w) && FreshInv(crypto, boxes, w)
    && forall t :: t in w.runs ==> TenantInv(crypto, boxes, w, t)
  }
}
