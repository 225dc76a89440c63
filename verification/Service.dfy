/**
 Two operations of api/main.py: onboarding an organisation with rollback, and labelling the
 verdicts of a record with the fields of its policies.
 */
module Service {
  import opened Basics
  import opened Arc4
  import opened BoxKeys
  import opened ResultString
  import opened PolicyContracts
  import opened TenantStores
  import opened ContractClient
  import opened Provisioning
  import opened Onboarding
  import opened OnboardingTheorems
  import opened OnboardingRuns

  datatype OnboardError = Conflict | ProvisioningFailed

  /** How the network treats the calls of one registration. */
  datatype Conditions = Conditions(countRead: bool, net: Network, seeds: seq<Network>)

  predicate Smooth(c: Conditions) {
    c.countRead && c.net.Delivered? && forall i :: 0 <= i < |c.seeds| ==> c.seeds[i].Delivered?
  }

  /** Every policy is encodable, there is room for all of them, and the network delivers every call. */
  ghost predicate Unhindered(crypto: Crypto, sha: Hash, c: Chain, org: Text, agent: Text, key: Bytes,
                             specs: seq<PolicySpec>, nonces: seq<Bytes>, conditions: seq<Conditions>)
    requires |specs| == |nonces| == |conditions|
  {
    && (forall i :: 0 <= i < |specs| ==>
          Smooth(conditions[i]) && SpecEncodable(crypto, org, agent, key, nonces[i], specs[i]))
    && (specs != [] ==> Fits16(|org|) && Fits16(|agent|) && RuleCount(sha, c, Tenant(org, agent)) + |specs| < 0x1_0000_0000_0000_0000)
  }

  /** All rows of other organisations are the same in both tables. */
  ghost predicate OthersUntouched(t: Tables, t': Tables, org: Text) {
    WithoutOrg(t', org) == WithoutOrg(t, org)
  }

  lemma StillUntouched(t: Tables, t': Tables, t'': Tables, org: Text)
    requires OthersUntouched(t, t', org) && OthersUntouched(t', t'', org)
    ensures OthersUntouched(t, t'', org)
  {
  }

  lemma AddRuleIsLocal(t: Tables, org: Text, agent: Text, idx: nat, row: RuleRow)
    ensures OthersUntouched(t, t.(rules := t.rules[(org, agent, idx) := row]), org)
  {
    var a, b := WithoutOrg(t.(rules := t.rules[(org, agent, idx) := row]), org), WithoutOrg(t, org);
    assert a.rules == b.rules;
  }

  lemma CreationIsLocal(t: Tables, t': Tables, org: Text, agent: Text)
    requires t'.orgs - {org} == t.orgs - {org} && t'.rules == t.rules
    requires t'.agents - {(org, agent)} == t.agents - {(org, agent)}
    ensures OthersUntouched(t, t', org)
  {
    var a, b := WithoutOrg(t', org), WithoutOrg(t, org);
    forall k: (Text, Text) | k.0 != org
      ensures k in t'.agents <==> k in t.agents
      ensures k in t.agents ==> t'.agents[k] == t.agents[k]
    {
      assert k in t'.agents <==> k in t'.agents - {(org, agent)};
      assert k in t.agents <==> k in t.agents - {(org, agent)};
      assert k in t.agents ==> (t.agents - {(org, agent)})[k] == (t'.agents - {(org, agent)})[k];
    }
    assert a.agents == b.agents;
  }

  /** Registers one policy in the form it was declared; only rules of the agent are added to the tables. */
  method RegisterSpec(crypto: Crypto, store: TenantStore, contract: PolicyContract, org: Text, agent: Text,
                      spec: PolicySpec, nonce: Bytes, c: Conditions)
    returns (r: Result<nat, ProvisionError>, ghost p: Progress)
    requires |c.seeds| == |spec.setValues|
    modifies store, contract
    ensures Reached(contract.sha, old(contract.State()), old(store.State()), org, agent,
                    RowOf(crypto, OrgKey(old(store.orgs), org), nonce, spec), SeedValues(spec), p,
                    contract.State(), store.State())
    ensures r.Success? ==> p == Stored(|SeedValues(spec)|)
    ensures
      && org in old(store.orgs) && Smooth(c) && SpecEncodable(crypto, org, agent, old(store.orgs)[org].encKey, nonce, spec)
      && RuleCount(contract.sha, old(contract.State()), Tenant(org, agent)) + 1 < 0x1_0000_0000_0000_0000
      ==> r.Success?
    ensures OthersUntouched(old(store.State()), store.State(), org)
    ensures store.orgs == old(store.orgs) && store.agents == old(store.agents)
  {
    ghost var chain, tables, key := contract.State(), store.State(), OrgKey(store.orgs, org);
    if spec.isPrivate && IsSetOperator(spec.operator) {
      r, p := RegisterSensitiveSetPolicy(crypto, store, contract, org, agent, spec.field, spec.operator, spec.setValues,
                                         nonce, c.countRead, c.net);
    } else if spec.isPrivate {
      r, p := RegisterSensitivePolicy(crypto, store, contract, org, agent, spec.field, spec.operator, spec.valueNum,
                                      nonce, c.countRead, c.net);
    } else {
      r, p := RegisterPolicy(store, contract, org, agent, spec.field, MODE_ONCHAIN, spec.operator, spec.valueNum, [],
                             spec.setValues, c.countRead, c.net, c.seeds);
    }
    if p.Stored? {
      AddRuleIsLocal(tables, org, agent, RuleCount(contract.sha, chain, Tenant(org, agent)), RowOf(crypto, key, nonce, spec));
    }
  }

  /** The onboarding machine is in world `w` when the call begins, and the agent id is a new one. */
  ghost predicate Linked(crypto: Crypto, sha: Hash, w: World, chain: Chain, tables: Tables, org: Text, agent: Text) {
    && crypto.sha == sha && w.chain == chain && w.tables == tables && TablesInv(w)
    && Fits16(|org|) && Fits16(|agent|) && agent !in w.issued
  }

  /** The body of the loop in `Onboard`, and the events of the machine that it stands for. */
  method RegisterNext(crypto: Crypto, store: TenantStore, contract: PolicyContract, org: Text, agent: Text,
                      specs: seq<PolicySpec>, i: nat, nonce: Bytes, c: Conditions,
                      ghost u: World, ghost before: seq<Event>, ghost v: World, ghost linked: bool)
    returns (r: Result<nat, ProvisionError>, ghost events: seq<Event>, ghost w: World)
    requires i < |specs| && |c.seeds| == |specs[i].setValues| && org in store.orgs
    requires linked ==>
      && crypto.sha == contract.sha && Fits16(|org|) && Fits16(|agent|) && Tenant(org, agent) !in u.runs
      && Underway(crypto, u, before, v, Tenant(org, agent), specs, i, contract.State(), store.State())
    modifies store, contract
    ensures OthersUntouched(old(store.State()), store.State(), org)
    ensures store.orgs == old(store.orgs) && store.agents == old(store.agents)
    ensures
      && Smooth(c) && SpecEncodable(crypto, org, agent, store.orgs[org].encKey, nonce, specs[i])
      && RuleCount(contract.sha, old(contract.State()), Tenant(org, agent)) + 1 < 0x1_0000_0000_0000_0000
      ==>
      && r.Success?
      && RuleCount(contract.sha, contract.State(), Tenant(org, agent))
         == RuleCount(contract.sha, old(contract.State()), Tenant(org, agent)) + 1
    ensures linked && r.Success? ==>
      Underway(crypto, u, events, w, Tenant(org, agent), specs, i + 1, contract.State(), store.State())
    ensures linked && r.Failure? ==>
      Over(crypto, u, events, w, contract.State(), WithoutOrg(store.State(), org), u.runs)
  {
    ghost var chain, tables := contract.State(), store.State();
    ghost var p;
    r, p := RegisterSpec(crypto, store, contract, org, agent, specs[i], nonce, c);
    events, w := before, v;
    if p.Stored? {
      StoredCount(contract.sha, chain, tables, org, agent, RowOf(crypto, tables.orgs[org].encKey, nonce, specs[i]),
                  SeedValues(specs[i]), p, contract.State(), store.State());
    }
    if linked {
      if r.Success? {
        events, w := SuccessPath(crypto, u, before, v, Tenant(org, agent), specs, i, nonce, p, chain, tables,
                                 contract.State(), store.State());
      } else {
        events, w := FailurePath(crypto, u, before, v, Tenant(org, agent), specs, i, nonce, p, chain, tables,
                                 contract.State(), store.State());
      }
    }
  }

  /** The loop of `Onboard`. */
  method RegisterAll(crypto: Crypto, store: TenantStore, contract: PolicyContract, org: Text, agent: Text,
                     specs: seq<PolicySpec>, nonces: seq<Bytes>, conditions: seq<Conditions>,
                     ghost u: World, ghost before: seq<Event>, ghost v: World, ghost linked: bool)
    returns (r: Result<(), OnboardError>, ghost events: seq<Event>, ghost w: World)
    requires |specs| == |nonces| == |conditions| && org in store.orgs
    requires forall i :: 0 <= i < |specs| ==> |conditions[i].seeds| == |specs[i].setValues|
    requires linked ==>
      && crypto.sha == contract.sha && Fits16(|org|) && Fits16(|agent|) && Tenant(org, agent) !in u.runs
      && Underway(crypto, u, before, v, Tenant(org, agent), specs, 0, contract.State(), store.State())
    modifies store, contract
    ensures OthersUntouched(old(store.State()), store.State(), org)
    ensures store.orgs == old(store.orgs) && store.agents == old(store.agents)
    ensures r.Success? || r == Failure(ProvisioningFailed)
    ensures
      Unhindered(crypto, contract.sha, old(contract.State()), org, agent, store.orgs[org].encKey, specs, nonces, conditions)
      ==> r.Success?
    ensures linked && r.Success? ==>
      Over(crypto, u, events, w, contract.State(), store.State(),
           u.runs[Tenant(org, agent) := Run(specs, |specs|, Ready, Completed)])
    ensures linked && r.Failure? ==>
      Over(crypto, u, events, w, contract.State(), WithoutOrg(store.State(), org), u.runs)
  {
    events, w := before, v;
    ghost var unhindered := Unhindered(crypto, contract.sha, contract.State(), org, agent, store.orgs[org].encKey,
                                       specs, nonces, conditions);
    ghost var count: nat := if unhindered && specs != [] then RuleCount(contract.sha, contract.State(), Tenant(org, agent)) else 0;
    var i := 0;
    while i < |specs|
      invariant 0 <= i <= |specs| && OthersUntouched(old(store.State()), store.State(), org)
      invariant store.orgs == old(store.orgs) && store.agents == old(store.agents)
      invariant unhindered && i < |specs| ==> RuleCount(contract.sha, contract.State(), Tenant(org, agent)) == count + i
      invariant linked ==>
        Underway(crypto, u, events, w, Tenant(org, agent), specs, i, contract.State(), store.State())
    {
      var registered;
      ghost var tables := store.State();
      registered, events, w := RegisterNext(crypto, store, contract, org, agent, specs, i, nonces[i], conditions[i],
                                            u, events, w, linked);
      StillUntouched(old(store.State()), tables, store.State(), org);
      if registered.Failure? {
        r := Failure(ProvisioningFailed);
        return;
      }
      i := i + 1;
    }
    if linked {
      events, w := FinishPath(crypto, u, events, w, Tenant(org, agent), specs, contract.State(), store.State());
    }
    r := Success(());
  }

  /**
   Onboarding with rollback.  `events` is what the call does to the onboarding machine when that
   is in world `u`, and `w` is the world afterwards.
   */
  method Onboard(crypto: Crypto, store: TenantStore, contract: PolicyContract, org: Text, orgRow: OrgRow,
                 agent: Text, agentName: Text, specs: seq<PolicySpec>, nonces: seq<Bytes>, conditions: seq<Conditions>,
                 ghost u: World)
    returns (r: Result<(), OnboardError>, ghost events: seq<Event>, ghost w: World)
    requires |specs| == |nonces| == |conditions|
    requires forall i :: 0 <= i < |specs| ==> |conditions[i].seeds| == |specs[i].setValues|
    modifies store, contract
    ensures org in old(store.orgs) ==> r == Failure(Conflict) && store.State() == old(store.State())
    ensures org !in old(store.orgs) && r.Failure? ==> store.State() == WithoutOrg(old(store.State()), org)
    ensures r.Success? ==>
      && org !in old(store.orgs) && org in store.orgs && store.orgs[org] == orgRow && (org, agent) in store.agents
      && OthersUntouched(old(store.State()), store.State(), org)
      && store.agents ==
           if (org, agent) in old(store.agents) then old(store.agents) else old(store.agents)[(org, agent) := agentName]
    ensures
      && org !in old(store.orgs) && (forall o :: o in old(store.orgs) ==> old(store.orgs)[o].apiKeyHash != orgRow.apiKeyHash)
      && Unhindered(crypto, contract.sha, old(contract.State()), org, agent, orgRow.encKey, specs, nonces, conditions)
      ==> r.Success?
    ensures Linked(crypto, contract.sha, u, old(contract.State()), old(store.State()), org, agent) ==>
      Over(crypto, u, events, w, contract.State(), store.State(),
           if r.Success? then u.runs[Tenant(org, agent) := Run(specs, |specs|, Ready, Completed)] else u.runs)
  {
    events, w := [], u;
    if org in store.orgs {
      r := Failure(Conflict);
      return;
    }
    ghost var linked := Linked(crypto, contract.sha, u, contract.State(), store.State(), org, agent);
    ghost var t := if linked then Tenant(org, agent) else Tenant([], []);
    var created := store.CreateOrg(org, orgRow);
    if created.Failure? {
      store.DeleteOrg(org);
      if linked {
        NoRowsWithoutOrg(u, org);
      }
      r := Failure(ProvisioningFailed);
      return;
    }
    store.AddAgent(org, agent, agentName);
    ghost var before := store.State();
    CreationIsLocal(old(store.State()), before, org, agent);
    if linked {
      events, w := BeginPath(crypto, u, t, orgRow, agentName, specs, store.State());
    }
    r, events, w := RegisterAll(crypto, store, contract, org, agent, specs, nonces, conditions, u, events, w, linked);
    StillUntouched(old(store.State()), before, store.State(), org);
    if r.Failure? {
      store.DeleteOrg(org);
    }
  }

  // ----- The policy breakdown -----

  /** The field of a rule, or its number when the store has no such rule. */
  datatype Label = Named(field: Text) | Numbered(index: nat)

  datatype BreakdownEntry = BreakdownEntry(field: Label, passed: bool, layer: Text)

  function EntryFor(rows: seq<(nat, RuleRow)>, i: nat, part: Text): BreakdownEntry {
    var (passed, layer) := Breakdown(part);
    BreakdownEntry(if i < |rows| then Named(rows[i].1.field) else Numbered(i), passed, layer)
  }

  method PolicyBreakdown(store: TenantStore, org: Text, agent: Text, policyResult: Text)
    returns (r: Option<seq<BreakdownEntry>>)
    ensures r.None? <==> policyResult == [] || org == [] || agent == []
    ensures r.Some? ==>
      var rows := Listing(store.State(), org, agent);
      && |r.value| == |Split(policyResult)|
      && forall i :: 0 <= i < |r.value| ==>
           && r.value[i].field == (if i < |rows| then Named(rows[i].1.field) else Numbered(i))
           && (r.value[i].passed, r.value[i].layer) == Breakdown(Split(policyResult)[i])
  {
    var rules := store.GetRules(org, agent);
    if policyResult == [] || org == [] || agent == [] {
      r := None;
      return;
    }
    var parts := Split(policyResult);
    var out: seq<BreakdownEntry> := [];
    for i := 0 to |parts|
      invariant |out| == i
      invariant forall j :: 0 <= j < i ==> out[j] == EntryFor(rules, j, parts[j])
    {
      out := out + [EntryFor(rules, i, parts[i])];
    }
    r := Some(out);
  }

  /** On a result of the contract, the breakdown gives each rule's field with its own verdict and layer. */
  method BreakdownOfCheck(store: TenantStore, org: Text, agent: Text, verdicts: seq<Verdict>)
    returns (entries: seq<BreakdownEntry>)
    requires verdicts != [] && org != [] && agent != []
    ensures |entries| == |verdicts|
    ensures forall i :: 0 <= i < |verdicts| ==>
      && entries[i].field == (if i < |Listing(store.State(), org, agent)|
                              then Named(Listing(store.State(), org, agent)[i].1.field) else Numbered(i))
      && entries[i].passed == verdicts[i].passed && entries[i].layer == LayerName(verdicts[i].layer)
  {
    SplitRender(verdicts);
    var breakdown := PolicyBreakdown(store, org, agent, Render(verdicts));
    entries := breakdown.value;
    forall i | 0 <= i < |verdicts|
      ensures entries[i].passed == verdicts[i].passed && entries[i].layer == LayerName(verdicts[i].layer)
    {
      TokenShape(verdicts[i]);
    }
  }
}
